/** Walks, reachability and cycles of a finite directed graph given as adjacency lists. */
module GraphPaths {
  import opened Sequences

  type Adjacency = seq<seq<nat>>

  /** Every target is a vertex. */
  ghost predicate Graph(g: Adjacency) {
    forall u :: 0 <= u < |g| ==> forall v :: v in g[u] ==> v < |g|
  }

  /** No target is listed twice. */
  ghost predicate Simple(g: Adjacency) {
    forall u :: 0 <= u < |g| ==> Distinct(g[u])
  }

  ghost predicate Edge(g: Adjacency, u: nat, v: nat) {
    u < |g| && v in g[u]
  }

  /** `back` lists for every vertex exactly the vertices that point to it. */
  ghost predicate Transposed(g: Adjacency, back: Adjacency) {
    |g| == |back| && Graph(g) && Graph(back) && forall u: nat, v: nat :: Edge(g, u, v) <==> Edge(back, v, u)
  }

  lemma TransposedSize(g: Adjacency, back: Adjacency)
    requires Transposed(g, back)
    ensures |g| == |back| && Graph(g) && Graph(back)
  {
  }

  ghost predicate Walk(g: Adjacency, p: seq<nat>) {
    && |p| > 0
    && (forall i :: 0 <= i < |p| ==> p[i] < |g|)
    && (forall i :: 0 < i < |p| ==> Edge(g, p[i - 1], p[i]))
  }

  ghost predicate WalkFrom(g: Adjacency, p: seq<nat>, u: nat, v: nat) {
    Walk(g, p) && p[0] == u && p[|p| - 1] == v
  }

  ghost predicate Reach(g: Adjacency, u: nat, v: nat) {
    exists p :: WalkFrom(g, p, u, v)
  }

  /** A vertex lies on a cycle when a walk of at least one edge returns to it. */
  ghost predicate OnCycle(g: Adjacency, v: nat) {
    exists u :: Edge(g, v, u) && Reach(g, u, v)
  }

  ghost predicate Mutual(g: Adjacency, u: nat, v: nat) {
    Reach(g, u, v) && Reach(g, v, u)
  }

  lemma ReachSelf(g: Adjacency, u: nat)
    requires u < |g|
    ensures Reach(g, u, u)
  {
    assert WalkFrom(g, [u], u, u);
  }

  lemma ReachStep(g: Adjacency, u: nat, v: nat, w: nat)
    requires Graph(g) && Reach(g, u, v) && Edge(g, v, w)
    ensures Reach(g, u, w)
  {
    var p :| WalkFrom(g, p, u, v);
    assert WalkFrom(g, p + [w], u, w);
  }

  lemma ReachTransitive(g: Adjacency, u: nat, v: nat, w: nat)
    requires Reach(g, u, v) && Reach(g, v, w)
    ensures Reach(g, u, w)
  {
    var p :| WalkFrom(g, p, u, v);
    var q :| WalkFrom(g, q, v, w);
    var r := p + q[1..];
    forall i | 0 < i < |r| ensures Edge(g, r[i - 1], r[i]) {
      if i >= |p| { assert r[i] == q[i - |p| + 1] && r[i - 1] == q[i - |p|]; }
    }
    assert WalkFrom(g, r, u, w);
  }

  lemma ReachEdge(g: Adjacency, u: nat, v: nat)
    requires Graph(g) && Edge(g, u, v)
    ensures Reach(g, u, v)
  {
    assert WalkFrom(g, [u, v], u, v);
  }

  /** The same against the direction of the edges. */
  lemma ClosedUnderReachBack(g: Adjacency, s: set<nat>, u: nat, v: nat)
    requires forall x, y :: y in s && Edge(g, x, y) ==> x in s
    requires v in s && Reach(g, u, v)
    ensures u in s
  {
    var p :| WalkFrom(g, p, u, v);
    var i := |p| - 1;
    while i > 0
      invariant 0 <= i < |p| && p[i] in s
    {
      assert Edge(g, p[i - 1], p[i]);
      i := i - 1;
    }
  }

  lemma {:induction false} WalkPieceReaches(g: Adjacency, p: seq<nat>, i: nat, j: nat)
    requires Walk(g, p) && i <= j < |p|
    ensures Reach(g, p[i], p[j])
  {
    assert WalkFrom(g, p[i..j + 1], p[i], p[j]);
  }

  lemma MutualTransitive(g: Adjacency, u: nat, v: nat, w: nat)
    requires Mutual(g, u, v) && Mutual(g, v, w)
    ensures Mutual(g, u, w)
  {
    ReachTransitive(g, u, v, w);
    ReachTransitive(g, w, v, u);
  }

  lemma LongWalkRepeats(g: Adjacency, p: seq<nat>)
    requires Walk(g, p) && |p| > |g|
    ensures exists i :: 0 <= i < |p| && OnCycle(g, p[i])
  {
    if Distinct(p) { DistinctBelow(p, |g|); }
    var i, j :| 0 <= i < j < |p| && p[i] == p[j];
    assert Edge(g, p[i], p[i + 1]);
    WalkPieceReaches(g, p, i + 1, j);
  }

  ghost predicate PredecessorIn(g: Adjacency, s: set<nat>, v: nat) {
    v < |g| && exists u :: u in s && Edge(g, u, v)
  }

  lemma {:induction false} WalkInside(g: Adjacency, s: set<nat>, n: nat) returns (p: seq<nat>)
    requires s != {}
    requires forall v {:trigger PredecessorIn(g, s, v)} :: v in s ==> PredecessorIn(g, s, v)
    ensures Walk(g, p) && |p| == n + 1 && forall i :: 0 <= i < |p| ==> p[i] in s
  {
    if n == 0 {
      var v :| v in s;
      assert PredecessorIn(g, s, v);
      p := [v];
    } else {
      var q := WalkInside(g, s, n - 1);
      assert PredecessorIn(g, s, q[0]);
      var u :| u in s && Edge(g, u, q[0]);
      p := [u] + q;
    }
  }

  /** Where every member of a non-empty finite set has a predecessor in the set, one lies on a cycle. */
  lemma NoSourceMeansCycle(g: Adjacency, s: set<nat>)
    requires s != {}
    requires forall v {:trigger PredecessorIn(g, s, v)} :: v in s ==> PredecessorIn(g, s, v)
    ensures exists v :: v in s && OnCycle(g, v)
  {
    var p := WalkInside(g, s, |g|);
    LongWalkRepeats(g, p);
  }

  /** The flags are set exactly for the listed vertices, each listed once. */
  ghost predicate Tracks(flags: seq<bool>, listed: seq<nat>) {
    Distinct(listed) && forall v: nat :: v < |flags| && flags[v] <==> v in listed
  }

  lemma TracksMore(flags: seq<bool>, listed: seq<nat>, u: nat)
    requires Tracks(flags, listed) && u < |flags| && !flags[u]
    ensures Tracks(flags[u := true], listed + [u])
  {
    assert u !in listed;
    forall v: nat ensures v < |flags| && flags[u := true][v] <==> v in listed + [u] {
      assert v < |flags| && flags[v] <==> v in listed;
    }
  }


  // ---------- counting edges ----------

  /** The number of edges that leave the vertices of a set. */
  ghost function EdgesFrom(g: Adjacency, s: set<nat>): nat {
    if g == [] then 0
    else EdgesFrom(g[..|g| - 1], s) + if |g| - 1 in s then |g[|g| - 1]| else 0
  }

  /** The number of edges of a graph. */
  ghost function EdgeCount(g: Adjacency): nat {
    if g == [] then 0 else EdgeCount(g[..|g| - 1]) + |g[|g| - 1]|
  }

  lemma {:induction false} EdgesFromNone(g: Adjacency)
    ensures EdgesFrom(g, {}) == 0
  {
    if g != [] { EdgesFromNone(g[..|g| - 1]); }
  }

  lemma {:induction false} EdgesFromAdd(g: Adjacency, s: set<nat>, v: nat)
    requires v !in s
    ensures EdgesFrom(g, s + {v}) == EdgesFrom(g, s) + if v < |g| then |g[v]| else 0
  {
    if g != [] { EdgesFromAdd(g[..|g| - 1], s, v); }
  }

  lemma {:induction false} EdgesFromAll(g: Adjacency, s: set<nat>)
    requires forall v: nat :: v < |g| ==> v in s
    ensures EdgesFrom(g, s) == EdgeCount(g)
  {
    if g != [] { EdgesFromAll(g[..|g| - 1], s); }
  }
}
