/** The iterative two-pass decomposition into strongly connected components (graph-components.ts). */
module GraphComponents {
  import opened Sequences
  import opened GraphPaths

  datatype Frame = Frame(vertex: nat, next: nat)

  ghost function Vertices(frames: seq<Frame>): seq<nat> {
    seq(|frames|, i requires 0 <= i < |frames| => frames[i].vertex)
  }

  ghost function NextSum(frames: seq<Frame>): nat {
    if frames == [] then 0 else NextSum(frames[..|frames| - 1]) + frames[|frames| - 1].next
  }

  // ---------- first pass: the finishing order ----------

  /**
   * Positions mark..i of the finishing order: all reachable from the vertex at i, and closed against edges from
   * before.
   */
  ghost predicate Segment(g: Adjacency, finish: seq<nat>, mark: nat, i: nat) {
    && mark <= i < |finish|
    && (forall j :: mark <= j <= i ==> Reach(g, finish[i], finish[j]))
    && (forall j, k :: 0 <= j < mark <= k <= i ==> !Edge(g, finish[j], finish[k]))
  }

  ghost predicate EndsSegment(g: Adjacency, finish: seq<nat>, i: nat) {
    exists mark :: Segment(g, finish, mark, i)
  }

  ghost predicate Segmented(g: Adjacency, finish: seq<nat>) {
    forall i :: 0 <= i < |finish| ==> EndsSegment(g, finish, i)
  }

  /** What the first pass leaves: each vertex once, ordered so that every position ends a segment. */
  ghost predicate FinishingOrder(g: Adjacency, finish: seq<nat>) {
    && Distinct(finish) && |finish| == |g|
    && (forall v: nat :: v < |g| <==> v in finish)
    && Segmented(g, finish)
  }

  /** The part of the search that is on the stack, relative to one frame. */
  ghost predicate FrameFacts(g: Adjacency, finish: seq<nat>, stack: seq<nat>, mark: nat, k: nat)
    requires k < |stack|
  {
    && mark <= |finish|
    && (forall j :: mark <= j < |finish| ==> Reach(g, stack[k], finish[j]))
    && (forall l :: k <= l < |stack| ==> Reach(g, stack[k], stack[l]))
    && (forall j, i :: 0 <= j < mark <= i < |finish| ==> !Edge(g, finish[j], finish[i]))
    && (forall j, l :: 0 <= j < mark && k <= l < |stack| ==> !Edge(g, finish[j], stack[l]))
  }

  ghost predicate Marked(g: Adjacency, finish: seq<nat>, stack: seq<nat>, marks: seq<nat>) {
    |marks| == |stack| && forall k :: 0 <= k < |stack| ==> FrameFacts(g, finish, stack, marks[k], k)
  }

  /** Which vertices were met, and that nothing finished points to a vertex not met. */
  ghost predicate Met(g: Adjacency, seen: seq<bool>, finish: seq<nat>, stack: seq<nat>) {
    && |seen| == |g|
    && Distinct(finish + stack)
    && (forall v: nat :: v < |g| && seen[v] <==> v in finish + stack)
    && (forall v, w :: v in finish && Edge(g, v, w) ==> w in finish + stack)
  }

  ghost predicate Advanced(g: Adjacency, seen: seq<bool>, frames: seq<Frame>) {
    |seen| == |g| && forall k :: 0 <= k < |frames| ==>
      && frames[k].vertex < |g| && frames[k].next <= |g[frames[k].vertex]|
      && forall j :: 0 <= j < frames[k].next ==> g[frames[k].vertex][j] < |g| && seen[g[frames[k].vertex][j]]
  }

  lemma PushFacts(g: Adjacency, seen: seq<bool>, finish: seq<nat>, stack: seq<nat>, marks: seq<nat>, v: nat)
    requires Graph(g) && v < |g| && Met(g, seen, finish, stack) && !seen[v] && Marked(g, finish, stack, marks)
    requires stack == [] || Edge(g, stack[|stack| - 1], v)
    ensures Met(g, seen[v := true], finish, stack + [v])
    ensures Marked(g, finish, stack + [v], marks + [|finish|])
  {
    assert v !in finish + stack;
    var t, ms := stack + [v], marks + [|finish|];
    assert finish + t == (finish + stack) + [v];
    ReachSelf(g, v);
    forall k | 0 <= k < |t| ensures FrameFacts(g, finish, t, ms[k], k) {
      if k < |stack| {
        assert FrameFacts(g, finish, stack, marks[k], k);
        ReachStep(g, stack[k], stack[|stack| - 1], v);
      }
    }
  }

  lemma MetPop(g: Adjacency, seen: seq<bool>, finish: seq<nat>, rest: seq<nat>, r: nat)
    requires Met(g, seen, finish, rest + [r])
    requires forall w :: Edge(g, r, w) ==> w in finish + (rest + [r])
    ensures Met(g, seen, finish + [r], rest)
  {
    var before, after := finish + (rest + [r]), (finish + [r]) + rest;
    assert multiset(before) == multiset(after);
    MembersOfMultiset(before, after);
    DistinctPermutation(before, after);
  }

  lemma MarkedPop(g: Adjacency, finish: seq<nat>, stack: seq<nat>, marks: seq<nat>)
    requires Marked(g, finish, stack, marks) && stack != []
    ensures var top := |stack| - 1; Marked(g, finish + [stack[top]], stack[..top], marks[..top])
  {
    var top := |stack| - 1;
    forall k | 0 <= k < top ensures FrameFacts(g, finish + [stack[top]], stack[..top], marks[k], k) {
      assert FrameFacts(g, finish, stack, marks[k], k);
    }
  }

  lemma SegmentedPop(g: Adjacency, finish: seq<nat>, r: nat, mark: nat)
    requires Segmented(g, finish) && FrameFacts(g, finish, [r], mark, 0)
    ensures Segmented(g, finish + [r])
  {
    var done := finish + [r];
    forall i | 0 <= i < |done| ensures EndsSegment(g, done, i) {
      if i < |finish| {
        assert EndsSegment(g, finish, i);
        var m :| Segment(g, finish, m, i);
        assert Segment(g, done, m, i);
      } else {
        assert Segment(g, done, mark, i);
      }
    }
  }

  lemma RoomOnStack(g: Adjacency, seen: seq<bool>, finish: seq<nat>, stack: seq<nat>)
    requires Met(g, seen, finish, stack)
    ensures |finish| + |stack| <= |g|
  {
    forall i | 0 <= i < |finish + stack| ensures (finish + stack)[i] < |g| {
      assert (finish + stack)[i] in finish + stack;
    }
    DistinctBelow(finish + stack, |g|);
  }

  /** Everything the first pass keeps between two steps of its search. */
  ghost predicate Searching(g: Adjacency, seen: seq<bool>, finish: seq<nat>, frames: seq<Frame>, marks: seq<nat>,
                            visits: nat) {
    && Met(g, seen, finish, Vertices(frames))
    && Marked(g, finish, Vertices(frames), marks)
    && Advanced(g, seen, frames)
    && Segmented(g, finish)
    && visits == EdgesFrom(g, Elements(finish)) + NextSum(frames)
  }

  lemma SearchInit(g: Adjacency, seen: seq<bool>)
    requires |seen| == |g| && forall v :: 0 <= v < |seen| ==> !seen[v]
    ensures Searching(g, seen, [], [], [], 0)
  {
    assert [] + Vertices([]) == [];
    EdgesFromNone(g);
    assert Elements<nat>([]) == {};
  }

  lemma SearchStart(g: Adjacency, seen: seq<bool>, finish: seq<nat>, marks: seq<nat>, visits: nat, root: nat)
    requires Graph(g) && root < |g| && Searching(g, seen, finish, [], marks, visits) && !seen[root]
    ensures Searching(g, seen[root := true], finish, [Frame(root, 0)], [|finish|], visits)
  {
    assert Vertices([]) == [] && marks == [];
    PushFacts(g, seen, finish, [], [], root);
    assert Vertices([Frame(root, 0)]) == [] + [root] && [] + [|finish|] == [|finish|];
    assert NextSum([Frame(root, 0)]) == 0;
  }

  lemma SearchPop(g: Adjacency, seen: seq<bool>, finish: seq<nat>, frames: seq<Frame>, marks: seq<nat>, visits: nat)
    requires Graph(g) && Searching(g, seen, finish, frames, marks, visits) && frames != []
    requires frames[|frames| - 1].next == |g[frames[|frames| - 1].vertex]|
    ensures var top := |frames| - 1;
            Searching(g, seen, finish + [frames[top].vertex], frames[..top], marks[..top], visits)
  {
    var top := |frames| - 1;
    var r, stack := frames[top].vertex, Vertices(frames);
    assert stack == Vertices(frames[..top]) + [r] && stack[..top] == Vertices(frames[..top]);
    forall w | Edge(g, r, w) ensures w in finish + stack {
      var j :| 0 <= j < |g[r]| && g[r][j] == w;
      assert seen[g[r][j]];
    }
    MetPop(g, seen, finish, stack[..top], r);
    MarkedPop(g, finish, stack, marks);
    assert FrameFacts(g, finish, stack, marks[top], top);
    assert FrameFacts(g, finish, [r], marks[top], 0);
    SegmentedPop(g, finish, r, marks[top]);
    assert Elements(finish + [r]) == Elements(finish) + {r};
    DistinctParts(finish, stack);
    assert stack[top] == r;
    EdgesFromAdd(g, Elements(finish), r);
  }

  ghost function Moved(frames: seq<Frame>): seq<Frame>
    requires frames != []
  {
    frames[|frames| - 1 := Frame(frames[|frames| - 1].vertex, frames[|frames| - 1].next + 1)]
  }

  lemma MovedFrames(frames: seq<Frame>)
    requires frames != []
    ensures Vertices(Moved(frames)) == Vertices(frames)
    ensures NextSum(Moved(frames)) == NextSum(frames) + 1
  {
    assert Moved(frames)[..|frames| - 1] == frames[..|frames| - 1];
  }

  lemma SearchSkip(g: Adjacency, seen: seq<bool>, finish: seq<nat>, frames: seq<Frame>, marks: seq<nat>, visits: nat,
                   target: nat)
    requires Searching(g, seen, finish, frames, marks, visits) && frames != []
    requires frames[|frames| - 1].next < |g[frames[|frames| - 1].vertex]|
    requires target == g[frames[|frames| - 1].vertex][frames[|frames| - 1].next]
    requires target < |g| && seen[target]
    ensures Searching(g, seen, finish, Moved(frames), marks, visits + 1)
  {
    MovedFrames(frames);
  }

  lemma SearchDescend(g: Adjacency, seen: seq<bool>, finish: seq<nat>, frames: seq<Frame>, marks: seq<nat>,
                      visits: nat, target: nat)
    requires Graph(g) && Searching(g, seen, finish, frames, marks, visits) && frames != []
    requires frames[|frames| - 1].next < |g[frames[|frames| - 1].vertex]|
    requires target == g[frames[|frames| - 1].vertex][frames[|frames| - 1].next]
    requires target < |g| && !seen[target]
    ensures Searching(g, seen[target := true], finish, Moved(frames) + [Frame(target, 0)],
      marks + [|finish|], visits + 1)
  {
    MovedFrames(frames);
    var moved, pushed := Moved(frames), Moved(frames) + [Frame(target, 0)];
    var stack := Vertices(frames);
    assert Edge(g, stack[|stack| - 1], target);
    PushFacts(g, seen, finish, stack, marks, target);
    assert Vertices(pushed) == stack + [target];
    assert pushed[..|moved|] == moved;
    assert NextSum(pushed) == NextSum(moved);
  }

  lemma SearchRoom(g: Adjacency, seen: seq<bool>, finish: seq<nat>, frames: seq<Frame>, marks: seq<nat>, visits: nat)
    requires Searching(g, seen, finish, frames, marks, visits)
    ensures |finish| + |frames| <= |g| && |marks| == |frames|
    ensures forall k :: 0 <= k < |frames| ==> frames[k].vertex < |g| && frames[k].next <= |g[frames[k].vertex]|
  {
    RoomOnStack(g, seen, finish, Vertices(frames));
  }

  lemma SearchDone(g: Adjacency, seen: seq<bool>, finish: seq<nat>, marks: seq<nat>, visits: nat)
    requires Searching(g, seen, finish, [], marks, visits) && forall v: nat :: v < |g| ==> seen[v]
    ensures FinishingOrder(g, finish) && visits == EdgeCount(g)
  {
    assert finish + Vertices([]) == finish;
    forall v: nat ensures v < |g| <==> v in finish { }
    EdgesFromAll(g, Elements(finish));
    forall v | v in Below(|g|) ensures v in Elements(finish) { }
    RoomOnStack(g, seen, finish, []);
    DistinctCardinality(finish);
    SubsetCardinality(Below(|g|), Elements(finish));
  }

  lemma GraphTargets(g: Adjacency, u: nat)
    requires Graph(g) && u < |g|
    ensures forall v :: v in g[u] ==> v < |g|
  {
  }

  method FirstPass(g: Adjacency) returns (finish: seq<nat>, edgeVisits: nat, peakFrames: nat)
    requires Graph(g)
    ensures FinishingOrder(g, finish)
    ensures edgeVisits == EdgeCount(g)
    ensures peakFrames <= |g|
  {
    hide Searching, Graph, FinishingOrder;
    var seen := new bool[|g|](_ => false);
    finish, edgeVisits, peakFrames := [], 0, 0;
    var frames: seq<Frame> := [];
    ghost var marks: seq<nat> := [];
    SearchInit(g, seen[..]);
    for root := 0 to |g|
      invariant Searching(g, seen[..], finish, frames, marks, edgeVisits)
      invariant frames == [] && peakFrames <= |g|
      invariant forall v :: 0 <= v < root ==> seen[v]
    {
      if seen[root] { continue; }
      SearchStart(g, seen[..], finish, marks, edgeVisits, root);
      seen[root] := true;
      frames, marks := [Frame(root, 0)], [|finish|];
      SearchRoom(g, seen[..], finish, frames, marks, edgeVisits);
      peakFrames := Max(peakFrames, |frames|);
      while |frames| > 0
        invariant Searching(g, seen[..], finish, frames, marks, edgeVisits)
        invariant |finish| + |frames| <= |g| && |marks| == |frames|
        invariant forall k :: 0 <= k < |frames| ==> frames[k].vertex < |g| && frames[k].next <= |g[frames[k].vertex]|
        invariant peakFrames <= |g|
        invariant forall v :: 0 <= v <= root ==> seen[v]
        decreases |g| - |finish| - |frames|, |frames|, if frames == [] then 0
          else |g[frames[|frames| - 1].vertex]| - frames[|frames| - 1].next
      {
        var top := |frames| - 1;
        var frame := frames[top];
        if frame.next == |g[frame.vertex]| {
          SearchPop(g, seen[..], finish, frames, marks, edgeVisits);
          finish := finish + [frame.vertex];
          frames, marks := frames[..top], marks[..top];
          SearchRoom(g, seen[..], finish, frames, marks, edgeVisits);
          continue;
        }
        var target := g[frame.vertex][frame.next];
        assert target < |g| by { assert target in g[frame.vertex]; GraphTargets(g, frame.vertex); }
        if seen[target] {
          SearchSkip(g, seen[..], finish, frames, marks, edgeVisits, target);
        } else {
          SearchDescend(g, seen[..], finish, frames, marks, edgeVisits, target);
        }
        frames := frames[top := Frame(frame.vertex, frame.next + 1)];
        edgeVisits := edgeVisits + 1;
        if !seen[target] {
          seen[target] := true;
          frames, marks := frames + [Frame(target, 0)], marks + [|finish|];
          peakFrames := Max(peakFrames, |frames|);
        }
        SearchRoom(g, seen[..], finish, frames, marks, edgeVisits);
      }
    }
    SearchDone(g, seen[..], finish, marks, edgeVisits);
  }

  // ---------- second pass: the components ----------

  ghost predicate StrictlyIncreasing(c: seq<nat>) {
    forall i, j :: 0 <= i < j < |c| ==> c[i] < c[j]
  }

  /** Exactly the vertices that reach r and are reached from r. */
  ghost predicate ClassOf(g: Adjacency, c: seq<nat>, r: nat) {
    forall v :: v in c <==> Mutual(g, r, v)
  }

  /** A mutual-reachability class, listed in increasing order. */
  ghost predicate Component(g: Adjacency, c: seq<nat>) {
    |c| > 0 && StrictlyIncreasing(c) && c[0] < |g| && ClassOf(g, c, c[0])
  }

  /** The classes found so far: `taken` is their union, and no edge enters it from outside. */
  ghost predicate Peeled(g: Adjacency, back: Adjacency, finish: seq<nat>, p: int, members: seq<seq<nat>>,
                         taken: set<nat>, visits: nat) {
    && (forall i :: 0 <= i < |members| ==> Component(g, members[i]) && forall v :: v in members[i] ==> v in taken)
    && (forall v :: v in taken ==> v < |g| && exists i :: 0 <= i < |members| && v in members[i])
    && (forall u, v :: v in taken && Edge(g, u, v) ==> u in taken)
    && (forall j :: 0 <= j < |finish| && p < j ==> finish[j] in taken)
    && visits == EdgesFrom(back, taken)
    && (forall i, j :: 0 <= i < j < |members| ==> members[i][0] != members[j][0])
  }

  /** One class while it grows: `done` have all their predecessors met, `open` are met only. */
  ghost predicate Growing(g: Adjacency, back: Adjacency, finish: seq<nat>, mark: nat, p: nat, taken: set<nat>,
                          done: seq<nat>, open: seq<nat>, seen: seq<bool>) {
    && Segment(g, finish, mark, p) && |seen| == |g|
    && Distinct(done + open) && finish[p] in done + open
    && (forall v: nat :: v < |g| && seen[v] <==> v in taken || v in done + open)
    && (forall v ::
      v in done + open ==> v !in taken && Mutual(g, finish[p], v) && exists j :: mark <= j <= p && finish[j] == v)
    && (forall u: nat, v :: v in done && Edge(g, u, v) ==> seen[u])
  }

  lemma GrowMet(g: Adjacency, back: Adjacency, finish: seq<nat>, mark: nat, p: nat, taken: set<nat>, done: seq<nat>,
                open: seq<nat>, seen: seq<bool>, u: nat, v: nat)
    requires FinishingOrder(g, finish) && Graph(g)
    requires Growing(g, back, finish, mark, p, taken, done, open, seen)
    requires forall j :: 0 <= j < |finish| && p < j ==> finish[j] in taken
    requires v in open && Edge(g, u, v) && !seen[u]
    ensures Growing(g, back, finish, mark, p, taken, done, open + [u], seen[u := true])
  {
    assert v in done + open;
    var k :| mark <= k <= p && finish[k] == v;
    assert u in finish;
    var j :| 0 <= j < |finish| && finish[j] == u;
    assert j <= p;
    assert j >= mark;
    ReachEdge(g, u, v);
    ReachTransitive(g, u, v, finish[p]);
    assert Mutual(g, finish[p], u);
    var all := done + (open + [u]);
    assert all == (done + open) + [u];
    assert u !in done + open && u !in taken;
    forall w | w in all ensures w !in taken && Mutual(g, finish[p], w) && exists i :: mark <= i <= p && finish[i] == w {
      if w == u { assert finish[j] == w; } else { assert w in done + open; }
    }
    var met := seen[u := true];
    forall w: nat ensures w < |g| && met[w] <==> w in taken || w in all {
      assert w < |g| && seen[w] <==> w in taken || w in done + open;
      assert w in all <==> w in done + open || w == u;
    }
  }

  lemma GrowClose(g: Adjacency, back: Adjacency, finish: seq<nat>, mark: nat, p: nat, taken: set<nat>, done: seq<nat>,
                  v: nat, rest: seq<nat>, seen: seq<bool>)
    requires Growing(g, back, finish, mark, p, taken, done, [v] + rest, seen)
    requires |seen| == |g| && forall u: nat :: Edge(g, u, v) ==> seen[u]
    ensures Growing(g, back, finish, mark, p, taken, done + [v], rest, seen)
  {
    assert done + ([v] + rest) == (done + [v]) + rest;
  }

  lemma GrowReorder(g: Adjacency, back: Adjacency, finish: seq<nat>, mark: nat, p: nat, taken: set<nat>,
                    done: seq<nat>, open: seq<nat>, seen: seq<bool>)
    requires Growing(g, back, finish, mark, p, taken, done, open, seen) && open != []
    ensures var top := |open| - 1; Growing(g, back, finish, mark, p, taken, done, [open[top]] + open[..top], seen)
  {
    var top := |open| - 1;
    var moved := [open[top]] + open[..top];
    assert open == open[..top] + [open[top]];
    assert multiset(done + open) == multiset(done + moved);
    MembersOfMultiset(done + open, done + moved);
    DistinctPermutation(done + open, done + moved);
  }

  lemma GrowStart(g: Adjacency, back: Adjacency, finish: seq<nat>, p: nat, members: seq<seq<nat>>, taken: set<nat>,
                  visits: nat, seen: seq<bool>)
    returns (mark: nat)
    requires FinishingOrder(g, finish) && p < |finish| && finish[p] < |g|
    requires Peeled(g, back, finish, p, members, taken, visits)
    requires |seen| == |g| && !seen[finish[p]] && forall v: nat :: v < |g| && seen[v] <==> v in taken
    ensures Growing(g, back, finish, mark, p, taken, [], [finish[p]], seen[finish[p] := true])
  {
    assert EndsSegment(g, finish, p);
    mark :| Segment(g, finish, mark, p);
    ReachSelf(g, finish[p]);
    assert [] + [finish[p]] == [finish[p]];
  }

  lemma GrownIsClass(g: Adjacency, back: Adjacency, finish: seq<nat>, mark: nat, p: nat, members: seq<seq<nat>>,
                     taken: set<nat>, visits: nat, done: seq<nat>, seen: seq<bool>)
    requires Peeled(g, back, finish, p, members, taken, visits)
    requires Growing(g, back, finish, mark, p, taken, done, [], seen)
    ensures ClassOf(g, done, finish[p])
  {
    var r := finish[p];
    assert done + [] == done;
    var met := set v | v in Below(|g|) && seen[v];
    forall u, v | v in met && Edge(g, u, v) ensures u in met { }
    forall v | Mutual(g, r, v) ensures v in done {
      ClosedUnderReachBack(g, met, v, r);
      if v in taken {
        var i :| 0 <= i < |members| && v in members[i];
        assert Component(g, members[i]);
        MutualTransitive(g, members[i][0], v, r);
      }
    }
  }

  lemma ClassSorted(g: Adjacency, c: seq<nat>, r: nat, sorted: seq<nat>)
    requires ClassOf(g, c, r) && r in c && r < |g| && Distinct(c)
    requires multiset(sorted) == multiset(c) && SortedBy(Ascending, sorted)
    ensures Component(g, sorted)
  {
    MembersOfMultiset(sorted, c);
    DistinctPermutation(c, sorted);
    forall i, j | 0 <= i < j < |sorted| ensures sorted[i] < sorted[j] { assert Ascending(sorted[i], sorted[j]); }
    var f := sorted[0];
    assert f in c && Mutual(g, r, f);
    forall v ensures v in sorted <==> Mutual(g, f, v) {
      if Mutual(g, r, v) { MutualTransitive(g, f, r, v); }
      if Mutual(g, f, v) { MutualTransitive(g, r, f, v); }
    }
    var p :| WalkFrom(g, p, r, f);
    assert p[|p| - 1] < |g|;
  }

  predicate Ascending(a: nat, b: nat) { a <= b }

  function First(c: seq<nat>): nat { if c == [] then 0 else c[0] }

  predicate FirstAscending(a: seq<nat>, b: seq<nat>) { First(a) <= First(b) }

  lemma PeelMore(g: Adjacency, back: Adjacency, finish: seq<nat>, mark: nat, p: nat, members: seq<seq<nat>>,
                 taken: set<nat>,
                 before: nat, done: seq<nat>, seen: seq<bool>, sorted: seq<nat>, visits: nat)
    requires Peeled(g, back, finish, p, members, taken, before)
    requires Growing(g, back, finish, mark, p, taken, done, [], seen)
    requires multiset(sorted) == multiset(done) && SortedBy(Ascending, sorted)
    requires visits == EdgesFrom(back, taken + Elements(done))
    ensures Peeled(g, back, finish, p - 1, members + [sorted], taken + Elements(done), visits)
    ensures forall v: nat :: v < |g| && seen[v] <==> v in taken + Elements(done)
  {
    assert done + [] == done;
    GrownIsClass(g, back, finish, mark, p, members, taken, before, done, seen);
    assert finish[p] < |g| by { var q :| WalkFrom(g, q, finish[p], finish[p]); assert q[0] < |g|; }
    ClassSorted(g, done, finish[p], sorted);
    MembersOfMultiset(sorted, done);
    var more, all := members + [sorted], taken + Elements(done);
    forall v | v in all ensures v < |g| && exists i :: 0 <= i < |more| && v in more[i] {
      if v in taken {
        var i :| 0 <= i < |members| && v in members[i];
        assert more[i] == members[i];
      } else {
        assert v in done && v in more[|members|];
      }
    }
    forall u: nat, v | v in all && Edge(g, u, v) ensures u in all {
      if v in done { assert seen[u]; }
    }
    forall i, j | 0 <= i < j < |more| ensures more[i][0] != more[j][0] {
      if j == |members| { assert more[i][0] in members[i] && more[j][0] in done; }
    }
  }

  lemma PeelNothing(g: Adjacency, back: Adjacency, finish: seq<nat>)
    ensures Peeled(g, back, finish, |finish| - 1, [], {}, 0)
  {
    EdgesFromNone(back);
  }

  lemma GrowingBounds(g: Adjacency, back: Adjacency, finish: seq<nat>, mark: nat, p: nat, taken: set<nat>,
                      done: seq<nat>, open: seq<nat>, seen: seq<bool>)
    requires Growing(g, back, finish, mark, p, taken, done, open, seen)
    ensures |done| + |open| <= |g|
    ensures forall v :: v in open ==> v < |g| && v !in taken && v !in done
  {
    forall i | 0 <= i < |done + open| ensures (done + open)[i] < |g| { assert (done + open)[i] in done + open; }
    DistinctBelow(done + open, |g|);
    DistinctParts(done, open);
    forall v | v in open ensures v < |g| && v !in taken { assert v in done + open; }
  }

  /** The predecessors of one vertex are read off the transposed lists. */
  lemma BackEdges(g: Adjacency, back: Adjacency, v: nat)
    requires Transposed(g, back) && v < |g|
    ensures forall u: nat :: Edge(g, u, v) <==> u in back[v]
    ensures forall u :: u in back[v] ==> u < |g|
  {
    forall u: nat ensures Edge(g, u, v) <==> u in back[v] { assert Edge(g, u, v) <==> Edge(back, v, u); }
  }

  /** Meets every predecessor of the vertex just taken from the stack. */
  method MeetPredecessors(g: Adjacency, back: Adjacency, finish: seq<nat>, ghost mark: nat, ghost p: nat,
                          seen: array<bool>,
                          ghost taken: set<nat>, ghost done: seq<nat>, vertex: nat, rest: seq<nat>,
                            visits: nat, peak: nat)
    returns (pending: seq<nat>, edgeVisits: nat, peakFrames: nat)
    requires Transposed(g, back) && FinishingOrder(g, finish) && vertex < |g|
    requires forall j :: 0 <= j < |finish| && p < j ==> finish[j] in taken
    requires seen.Length == |g| && Growing(g, back, finish, mark, p, taken, done, [vertex] + rest, seen[..])
    requires peak <= |g|
    modifies seen
    ensures Growing(g, back, finish, mark, p, taken, done + [vertex], pending, seen[..])
    ensures |back| == |g| && edgeVisits == visits + |back[vertex]|
    ensures peakFrames <= |g|
  {
    BackEdges(g, back, vertex);
    TransposedSize(g, back);
    hide Growing, FinishingOrder, Transposed, Graph, Edge;
    pending, edgeVisits, peakFrames := rest, visits, peak;
    for t := 0 to |back[vertex]|
      invariant Growing(g, back, finish, mark, p, taken, done, [vertex] + pending, seen[..])
      invariant edgeVisits == visits + t
      invariant peakFrames <= |g|
      invariant forall i :: 0 <= i < t ==> back[vertex][i] < |g| && seen[back[vertex][i]]
    {
      var target := back[vertex][t];
      assert target in back[vertex];
      edgeVisits := edgeVisits + 1;
      if !seen[target] {
        GrowMet(g, back, finish, mark, p, taken, done, [vertex] + pending, seen[..], target, vertex);
        assert ([vertex] + pending) + [target] == [vertex] + (pending + [target]);
        seen[target] := true;
        pending := pending + [target];
        GrowingBounds(g, back, finish, mark, p, taken, done, [vertex] + pending, seen[..]);
        peakFrames := Max(peakFrames, |pending|);
      }
    }
    GrowClose(g, back, finish, mark, p, taken, done, vertex, pending, seen[..]);
  }

  /** Collects one class by a search against the edges, from a vertex not yet taken. */
  method Collect(g: Adjacency, back: Adjacency, finish: seq<nat>, p: nat, seen: array<bool>,
                 ghost members: seq<seq<nat>>, ghost taken: set<nat>, visits: nat, peak: nat)
    returns (done: seq<nat>, edgeVisits: nat, peakFrames: nat, ghost mark: nat)
    requires Transposed(g, back) && FinishingOrder(g, finish) && p < |finish| && finish[p] < |g|
    requires seen.Length == |g| && !seen[finish[p]] && forall v: nat :: v < |g| && seen[v] <==> v in taken
    requires Peeled(g, back, finish, p, members, taken, visits)
    requires peak <= |g|
    modifies seen
    ensures Growing(g, back, finish, mark, p, taken, done, [], seen[..])
    ensures edgeVisits == EdgesFrom(back, taken + Elements(done))
    ensures peakFrames <= |g|
  {
    mark := GrowStart(g, back, finish, p, members, taken, visits, seen[..]);
    assert forall j :: 0 <= j < |finish| && p < j ==> finish[j] in taken;
    assert visits == EdgesFrom(back, taken + Elements<nat>([])) by { assert taken + Elements<nat>([]) == taken; }
    TransposedSize(g, back);
    hide Growing, Peeled, FinishingOrder, Transposed, Graph, EdgesFrom, Elements, Edge;
    seen[finish[p]] := true;
    var pending := [finish[p]];
    done := [];
    edgeVisits, peakFrames := visits, Max(peak, 1);
    while |pending| > 0
      invariant Growing(g, back, finish, mark, p, taken, done, pending, seen[..])
      invariant edgeVisits == EdgesFrom(back, taken + Elements(done))
      invariant peakFrames <= |g|
      decreases |g| - |done|
    {
      GrowReorder(g, back, finish, mark, p, taken, done, pending, seen[..]);
      var vertex := pending[|pending| - 1];
      pending := pending[..|pending| - 1];
      GrowingBounds(g, back, finish, mark, p, taken, done, [vertex] + pending, seen[..]);
      assert vertex in [vertex] + pending;
      AddVisited(back, taken, done, vertex);
      pending, edgeVisits, peakFrames :=
        MeetPredecessors(g, back, finish, mark, p, seen, taken, done, vertex, pending, edgeVisits, peakFrames);
      done := done + [vertex];
    }
  }

  lemma AddVisited(back: Adjacency, taken: set<nat>, done: seq<nat>, v: nat)
    requires v !in taken && v !in done && v < |back|
    ensures EdgesFrom(back, taken + Elements(done + [v])) == EdgesFrom(back, taken + Elements(done)) + |back[v]|
  {
    assert taken + Elements(done + [v]) == (taken + Elements(done)) + {v};
    EdgesFromAdd(back, taken + Elements(done), v);
  }

  // ---------- the result ----------

  ghost predicate Listed(members: seq<seq<nat>>, v: nat) {
    exists i :: 0 <= i < |members| && v in members[i]
  }

  /** All mutual-reachability classes, each in increasing order, listed by their least members. */
  ghost predicate Decomposition(g: Adjacency, members: seq<seq<nat>>) {
    && (forall i :: 0 <= i < |members| ==> Component(g, members[i]))
    && (forall i, j :: 0 <= i < j < |members| ==> First(members[i]) < First(members[j]))
    && (forall v: nat :: v < |g| ==> Listed(members, v))
  }

  lemma FinishedVertices(g: Adjacency, finish: seq<nat>)
    requires FinishingOrder(g, finish)
    ensures forall i :: 0 <= i < |finish| ==> finish[i] < |g|
  {
    forall i | 0 <= i < |finish| ensures finish[i] < |g| { assert finish[i] in finish; }
  }

  method SecondPass(g: Adjacency, back: Adjacency, finish: seq<nat>, peak: nat)
    returns (members: seq<seq<nat>>, edgeVisits: nat, peakFrames: nat)
    requires Transposed(g, back) && FinishingOrder(g, finish) && peak <= |g|
    ensures Decomposition(g, members)
    ensures edgeVisits == EdgeCount(back)
    ensures peakFrames <= |g|
  {
    hide Growing, Peeled, FinishingOrder, Transposed, Graph, EdgesFrom, Elements, Decomposition, Distinct, Edge;
    TransposedSize(g, back);
    FinishedVertices(g, finish);
    PeelNothing(g, back, finish);
    var seen := new bool[|g|](_ => false);
    members, edgeVisits, peakFrames := [], 0, peak;
    ghost var taken: set<nat> := {};
    for p := |finish| downto 0
      invariant Peeled(g, back, finish, p - 1, members, taken, edgeVisits)
      invariant forall v: nat :: v < |g| && seen[v] <==> v in taken
      invariant peakFrames <= |g|
    {
      var root := finish[p];
      if seen[root] {
        PeelTaken(g, back, finish, p, members, taken, edgeVisits);
        continue;
      }
      ghost var before := edgeVisits;
      ghost var mark: nat;
      var component: seq<nat>;
      component, edgeVisits, peakFrames, mark :=
        Collect(g, back, finish, p, seen, members, taken, edgeVisits, peakFrames);
      SortCorrect(Ascending, component);
      var sorted := Sort(Ascending, component);
      PeelMore(g, back, finish, mark, p, members, taken, before, component, seen[..], sorted, edgeVisits);
      members := members + [sorted];
      taken := taken + Elements(component);
    }
    SortCorrect(FirstAscending, members);
    PeeledAll(g, back, finish, members, taken, edgeVisits, Sort(FirstAscending, members));
    members := Sort(FirstAscending, members);
  }

  lemma PeelTaken(g: Adjacency, back: Adjacency, finish: seq<nat>, p: nat, members: seq<seq<nat>>, taken: set<nat>,
                  visits: nat)
    requires Peeled(g, back, finish, p, members, taken, visits)
    requires p < |finish| ==> finish[p] in taken
    ensures Peeled(g, back, finish, p - 1, members, taken, visits)
  {
  }

  lemma PeeledAll(g: Adjacency, back: Adjacency, finish: seq<nat>, members: seq<seq<nat>>, taken: set<nat>,
                  visits: nat, sorted: seq<seq<nat>>)
    requires FinishingOrder(g, finish) && |back| == |g|
    requires Peeled(g, back, finish, -1, members, taken, visits)
    requires SortedBy(FirstAscending, sorted) && multiset(sorted) == multiset(members)
    ensures Decomposition(g, sorted) && visits == EdgeCount(back)
  {
    forall v: nat | v < |g| ensures v in taken {
      assert v in finish;
    }
    EdgesFromAll(back, taken);
    MembersOfMultiset(sorted, members);
    PeeledSorted(members, sorted);
    forall v: nat | v < |g| ensures Listed(sorted, v) {
      assert v in taken;
      var i :| 0 <= i < |members| && v in members[i];
      assert members[i] in sorted;
      var k :| 0 <= k < |sorted| && sorted[k] == members[i];
    }
    forall i | 0 <= i < |sorted| ensures Component(g, sorted[i]) {
      assert sorted[i] in members;
    }
  }

  lemma PeeledSorted(members: seq<seq<nat>>, sorted: seq<seq<nat>>)
    requires forall i :: 0 <= i < |members| ==> |members[i]| > 0
    requires forall i, j :: 0 <= i < j < |members| ==> members[i][0] != members[j][0]
    requires SortedBy(FirstAscending, sorted) && multiset(sorted) == multiset(members)
    ensures forall i, j :: 0 <= i < j < |sorted| ==> First(sorted[i]) < First(sorted[j])
  {
    MembersOfMultiset(sorted, members);
    DistinctPermutation(members, sorted);
    forall i, j | 0 <= i < j < |sorted| ensures First(sorted[i]) < First(sorted[j]) {
      assert FirstAscending(sorted[i], sorted[j]);
      assert sorted[i] in members && sorted[j] in members;
      var a :| 0 <= a < |members| && members[a] == sorted[i];
      var b :| 0 <= b < |members| && members[b] == sorted[j];
      assert sorted[i] != sorted[j];
    }
  }

  /** The whole decomposition: exact classes, every edge looked at twice, never more than |g| frames. */
  method Components(outgoing: Adjacency, incoming: Adjacency)
    returns (members: seq<seq<nat>>, edgeVisits: nat, peakFrames: nat)
    requires Transposed(outgoing, incoming)
    ensures Decomposition(outgoing, members)
    ensures edgeVisits == EdgeCount(outgoing) + EdgeCount(incoming)
    ensures peakFrames <= |outgoing|
  {
    var finish, forward, peak := FirstPass(outgoing);
    var backward: nat;
    members, backward, peakFrames := SecondPass(outgoing, incoming, finish, peak);
    edgeVisits := forward + backward;
  }

  /** Classes that share a vertex are the same list. */
  lemma SameComponent(g: Adjacency, a: seq<nat>, b: seq<nat>, v: nat)
    requires Component(g, a) && Component(g, b) && v in a && v in b
    ensures a == b
  {
    forall w ensures w in a <==> w in b {
      if w in a { MutualTransitive(g, b[0], v, a[0]); MutualTransitive(g, b[0], a[0], w); }
      if w in b { MutualTransitive(g, a[0], v, b[0]); MutualTransitive(g, a[0], b[0], w); }
    }
    IncreasingUnique(a, b);
  }

  lemma {:induction false} IncreasingUnique(a: seq<nat>, b: seq<nat>)
    requires StrictlyIncreasing(a) && StrictlyIncreasing(b) && forall w :: w in a <==> w in b
    ensures a == b
  {
    assert |a| > 0 ==> a[0] in a;
    assert |b| > 0 ==> b[0] in b;
    if a != [] && b != [] {
      assert a[0] == b[0];
      forall w ensures w in a[1..] <==> w in b[1..] {
        assert w in a <==> w == a[0] || w in a[1..];
        assert w in b <==> w == b[0] || w in b[1..];
        assert a[0] !in a[1..] && b[0] !in b[1..];
      }
      IncreasingUnique(a[1..], b[1..]);
    }
  }

  lemma MemberInOther(g: Adjacency, a: seq<seq<nat>>, b: seq<seq<nat>>, i: nat) returns (j: nat)
    requires Decomposition(g, a) && Decomposition(g, b) && i < |a|
    ensures j < |b| && b[j] == a[i]
  {
    assert Component(g, a[i]);
    var v := a[i][0];
    assert Listed(b, v);
    j :| 0 <= j < |b| && v in b[j];
    SameComponent(g, a[i], b[j], v);
  }

  ghost function Firsts(a: seq<seq<nat>>): (r: seq<nat>)
    ensures |r| == |a| && forall i :: 0 <= i < |a| ==> r[i] == First(a[i])
  {
    seq(|a|, i requires 0 <= i < |a| => First(a[i]))
  }

  lemma FirstsContained(g: Adjacency, a: seq<seq<nat>>, b: seq<seq<nat>>)
    requires Decomposition(g, a) && Decomposition(g, b)
    ensures forall w :: w in Firsts(a) ==> w in Firsts(b)
  {
    hide Decomposition;
    forall w | w in Firsts(a) ensures w in Firsts(b) {
      var i :| 0 <= i < |a| && Firsts(a)[i] == w;
      var j := MemberInOther(g, a, b, i);
      assert Firsts(b)[j] == w;
    }
  }

  /** A graph has one decomposition only: the result does not depend on how edges are listed or searched. */
  lemma DecompositionUnique(g: Adjacency, a: seq<seq<nat>>, b: seq<seq<nat>>)
    requires Decomposition(g, a) && Decomposition(g, b)
    ensures a == b
  {
    FirstsContained(g, a, b);
    FirstsContained(g, b, a);
    assert StrictlyIncreasing(Firsts(a)) && StrictlyIncreasing(Firsts(b));
    hide Decomposition;
    IncreasingUnique(Firsts(a), Firsts(b));
    forall i | 0 <= i < |a| ensures a[i] == b[i] {
      var j := MemberInOther(g, a, b, i);
      assert Firsts(a)[i] == Firsts(b)[i] && Firsts(a)[i] == Firsts(b)[j];
    }
  }
}
