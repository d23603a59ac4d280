/** The state of a tree of cleanup scopes and what one step does to it (scope.ts, reverse order). */
module ScopeState {
  import opened Sequences

  datatype Where = Live | Active | Failed | Gone

  /** One registration: a resource (child == -1) or a child scope. */
  datatype Entry = Entry(owner: int, child: int, where: Where)

  /** How far a flight has come; a child flight is joined until it has reported, completely or not. */
  datatype Phase =
    | Opened
    | Queued
    | Running
    | Releasing(entry: int)
    | Joining(entry: int, outcome: Option<bool>)

  datatype Flight = NoFlight | InFlight(phase: Phase, attempted: set<int>)

  /** A scope; `up` and `entry` are its parent and its place there, kept when it detaches. */
  datatype Node = Node(
    up: int, entry: int, pending: set<int>, active: set<int>, live: seq<int>, tombstones: int, failed: seq<int>,
    requested: bool, detached: bool, flight: Flight)

  /**
   * The calls in progress on the stack: abort listeners running, a close to be finished, a drain of the start
   * queue.
   */
  datatype Frame = Notify | Closing(node: int, started: bool) | Drain

  /** `spent` remembers the scopes whose whole tree has been released when they detached. */
  datatype State = State(nodes: seq<Node>, entries: seq<Entry>, queue: seq<int>, cursor: int, stack: seq<Frame>,
    spent: set<int>)

  const COMPACT_AT := 32

  // ---------- the list of live entries ----------

  ghost predicate IsGone(es: seq<Entry>, e: int) {
    0 <= e < |es| && es[e].where == Gone
  }

  /** The list without its tombstones. */
  ghost function Compact(es: seq<Entry>, live: seq<int>): seq<int> {
    if live == [] then []
    else
      var rest, e := Compact(es, live[..|live| - 1]), live[|live| - 1];
      if IsGone(es, e) then rest else rest + [e]
  }

  ghost function CountGone(es: seq<Entry>, live: seq<int>): int {
    |live| - |Compact(es, live)|
  }

  /** The list once the tombstones at its top are popped. */
  ghost function DropGone(es: seq<Entry>, live: seq<int>): (r: seq<int>)
    ensures r <= live
    ensures r != [] ==> !IsGone(es, r[|r| - 1])
  {
    if live == [] || !IsGone(es, live[|live| - 1]) then live else DropGone(es, live[..|live| - 1])
  }

  lemma {:induction false} DropKeeps(es: seq<Entry>, live: seq<int>)
    ensures Compact(es, DropGone(es, live)) == Compact(es, live)
  {
    if live != [] && IsGone(es, live[|live| - 1]) { DropKeeps(es, live[..|live| - 1]); }
  }

  lemma {:induction false} CompactMembers(es: seq<Entry>, live: seq<int>)
    ensures |Compact(es, live)| <= |live|
    ensures forall e :: e in Compact(es, live) <==> e in live && !IsGone(es, e)
    ensures Distinct(live) ==> Distinct(Compact(es, live))
  {
    if live != [] {
      CompactMembers(es, live[..|live| - 1]);
      assert live == live[..|live| - 1] + [live[|live| - 1]];
    }
  }

  lemma {:induction false} CompactIdle(es: seq<Entry>, live: seq<int>)
    requires forall i :: 0 <= i < |live| ==> !IsGone(es, live[i])
    ensures Compact(es, live) == live
  {
    if live != [] { CompactIdle(es, live[..|live| - 1]); }
  }

  /** Only what has become of the listed entries matters. */
  lemma {:induction false} CompactSame(es: seq<Entry>, fs: seq<Entry>, live: seq<int>)
    requires forall i :: 0 <= i < |live| ==> (IsGone(es, live[i]) <==> IsGone(fs, live[i]))
    ensures Compact(es, live) == Compact(fs, live)
  {
    if live != [] { CompactSame(es, fs, live[..|live| - 1]); }
  }

  lemma {:induction false} CompactAppend(es: seq<Entry>, live: seq<int>, more: seq<int>)
    ensures Compact(es, live + more) == Compact(es, live) + Compact(es, more)
  {
    if more == [] {
      assert live + more == live;
    } else {
      CompactAppend(es, live, more[..|more| - 1]);
      assert (live + more)[..|live + more| - 1] == live + more[..|more| - 1];
    }
  }

  /** What a stack pops next, and what it leaves, is the same with and without its tombstones. */
  lemma PopIgnoresTombstones(es: seq<Entry>, live: seq<int>)
    ensures DropGone(es, live) == [] <==> Compact(es, live) == []
    ensures DropGone(es, live) != [] ==>
      var d, c := DropGone(es, live), Compact(es, live);
      d[|d| - 1] == c[|c| - 1] && Compact(es, d[..|d| - 1]) == c[..|c| - 1]
  {
    DropKeeps(es, live);
  }

  lemma {:induction false} CountOneGone(es: seq<Entry>, e: int, live: seq<int>)
    requires 0 <= e < |es| && es[e].where != Gone && Distinct(live)
    ensures var fs := es[e := es[e].(where := Gone)];
            CountGone(fs, live) == CountGone(es, live) + if e in live then 1 else 0
  {
    var fs := es[e := es[e].(where := Gone)];
    if live != [] {
      var front, last := live[..|live| - 1], live[|live| - 1];
      CountOneGone(es, e, front);
      assert live == front + [last];
      if last == e {
        assert e !in front;
      }
    }
  }

  lemma CompactTwice(es: seq<Entry>, live: seq<int>)
    ensures Compact(es, Compact(es, live)) == Compact(es, live)
  {
    var c := Compact(es, live);
    CompactMembers(es, live);
    hide Compact;
    forall i | 0 <= i < |c| ensures !IsGone(es, c[i]) { assert c[i] in c; }
    CompactIdle(es, c);
  }

  // ---------- the tree ----------

  /** m is a or was created below it, detached or not. */
  ghost predicate Under(ns: seq<Node>, a: int, m: int)
    decreases m
  {
    0 <= m < |ns| && (m == a || (0 <= ns[m].up < m && Under(ns, a, ns[m].up)))
  }

  ghost function Tree(ns: seq<Node>, a: int): set<int> {
    set m | 0 <= m < |ns| && Under(ns, a, m)
  }

  /** The nodes a request from n visits: the registered scopes below n, down to those that were requested before. */
  ghost predicate Visited(ns: seq<Node>, n: int, m: int)
    decreases m
  {
    0 <= m < |ns|
      && (m == n || (0 <= ns[m].up < m && !ns[m].detached && !ns[ns[m].up].requested && Visited(ns, n, ns[m].up)))
  }

  ghost predicate Mine(es: seq<Entry>, n: int, e: int) {
    0 <= e < |es| && es[e].owner == n
  }

  // ---------- the invariant, part by part ----------

  ghost predicate Linked(ns: seq<Node>, es: seq<Entry>) {
    && ns != [] && ns[0].up == -1 && ns[0].entry == -1
    && (forall n :: 0 < n < |ns| ==> 0 <= ns[n].up < n && Mine(es, ns[n].up, ns[n].entry) && es[ns[n].entry].child == n)
    && (forall e :: 0 <= e < |es| ==>
          && 0 <= es[e].owner < |ns|
          && (es[e].child == -1 || (es[e].owner < es[e].child < |ns| && ns[es[e].child].entry == e)))
  }

  ghost function Busy(f: Flight): set<int> {
    if f.NoFlight? then {} else match f.phase case Releasing(e) => {e} case Joining(e, _) => {e} case _ => {}
  }

  ghost predicate Lists(es: seq<Entry>, n: int, l: seq<int>, w: Where) {
    Distinct(l) && forall i :: 0 <= i < |l| ==> Mine(es, n, l[i]) && es[l[i]].where in {w, Gone}
  }

  /** The lists of one scope hold what they are for: what is waiting, what is being released, what has failed. */
  ghost predicate Held(es: seq<Entry>, n: int, node: Node) {
    && Lists(es, n, node.live, Live) && Lists(es, n, node.failed, Failed)
    && node.tombstones == CountGone(es, node.live)
    && node.active == Busy(node.flight)
    && (forall e :: e in node.active ==> Mine(es, n, e) && es[e].where in {Active, Gone})
    && (node.flight.InFlight? ==> node.requested && forall e ::
      e in node.flight.attempted ==> Mine(es, n, e) && es[e].where != Live)
  }

  /**
   * Every registration is in the one list that its state names; a child scope's is gone exactly when the scope has
   * detached.
   */
  ghost predicate Kept(ns: seq<Node>, es: seq<Entry>, e: int)
    requires 0 <= e < |es| && 0 <= es[e].owner < |ns|
  {
    var node := ns[es[e].owner];
    && (es[e].where == Live ==> e in node.live)
    && (es[e].where == Failed ==> e in node.failed)
    && (es[e].where == Active ==> e in node.active)
    && (0 <= es[e].child < |ns| ==> (es[e].where == Gone <==> ns[es[e].child].detached))
  }

  /**
   * A resource being released is still held; a joined child has reported completely only by detaching, and
   * otherwise is in flight.
   */
  ghost predicate Lane(ns: seq<Node>, es: seq<Entry>, node: Node) {
    node.flight.InFlight? ==>
      match node.flight.phase
      case Releasing(e) => 0 <= e < |es| && es[e].child == -1 && es[e].where == Active
      case Joining(e, outcome) =>
        && 0 <= e < |es| && 0 <= es[e].child < |ns|
        && (outcome == Some(true) ==> es[e].where == Gone)
        && (outcome == None ==> ns[es[e].child].flight.InFlight?)
      case _ => true
  }

  /** Below a requested scope everything is requested. */
  ghost predicate Sealed(ns: seq<Node>) {
    forall m :: 0 < m < |ns| && 0 <= ns[m].up < |ns| && ns[ns[m].up].requested ==> ns[m].requested
  }

  /**
   * Nothing will be acquired here any more, nothing is being set up, and everything acquired here has been
   * released.
   */
  ghost predicate Done(ns: seq<Node>, es: seq<Entry>, n: int) {
    && 0 <= n < |ns| && ns[n].requested && ns[n].pending == {}
    && forall e :: Mine(es, n, e) && es[e].child == -1 ==> es[e].where == Gone
  }

  ghost predicate SpentTrees(ns: seq<Node>, es: seq<Entry>, spent: set<int>) {
    && (forall n :: n in spent ==> Done(ns, es, n))
    && (forall m :: 0 < m < |ns| && ns[m].up in spent ==> m in spent)
    && (forall n :: 0 <= n < |ns| && ns[n].detached ==> n in spent)
  }

  ghost predicate AllHeld(ns: seq<Node>, es: seq<Entry>) {
    forall n :: 0 <= n < |ns| ==> Held(es, n, ns[n])
  }

  ghost predicate AllKept(ns: seq<Node>, es: seq<Entry>)
    requires Linked(ns, es)
  {
    forall e :: 0 <= e < |es| ==> Kept(ns, es, e)
  }

  ghost predicate AllLanes(ns: seq<Node>, es: seq<Entry>) {
    forall n :: 0 <= n < |ns| ==> Lane(ns, es, ns[n])
  }

  ghost predicate Core(s: State) {
    && Linked(s.nodes, s.entries) && AllHeld(s.nodes, s.entries) && AllKept(s.nodes, s.entries)
    && AllLanes(s.nodes, s.entries)
    && Sealed(s.nodes) && SpentTrees(s.nodes, s.entries, s.spent)
  }

  // ---------- what the operations do ----------

  ghost function Forget(s: State, e: int): State
    requires 0 <= e < |s.entries| && 0 <= s.entries[e].owner < |s.nodes|
  {
    var o := s.entries[e].owner;
    var node := s.nodes[o];
    var es := s.entries[e := s.entries[e].(where := Gone)];
    if s.entries[e].where != Live then s.(entries := es)
    else if node.tombstones + 1 > COMPACT_AT && (node.tombstones + 1) * 2 > |node.live| then
      s.(entries := es, nodes := s.nodes[o := node.(live := Compact(es, node.live), tombstones := 0)])
    else s.(entries := es, nodes := s.nodes[o := node.(tombstones := node.tombstones + 1)])
  }

  ghost function Detach(s: State, n: int): State
    requires Linked(s.nodes, s.entries) && 0 <= n < |s.nodes|
  {
    if s.nodes[n].detached then s
    else
      var t := s.(nodes := s.nodes[n := s.nodes[n].(detached := true)], spent := s.spent + Tree(s.nodes, n));
      if n == 0 then t else Forget(t, s.nodes[n].entry)
  }

  ghost function Request(s: State, n: int): State {
    s.(nodes :=
      seq(|s.nodes|,
        m requires 0 <= m < |s.nodes| => if Visited(s.nodes, n, m) then s.nodes[m].(requested := true) else s.nodes[m]))
  }

  /** What is to be retried, in the order a new flight pushes it: the latest failure first. */
  ghost function Retry(es: seq<Entry>, failed: seq<int>): seq<int> {
    if failed == [] then []
    else
      var e, rest := failed[|failed| - 1], Retry(es, failed[..|failed| - 1]);
      if 0 <= e < |es| && es[e].where == Failed then [e] + rest else rest
  }

  ghost function Reopen(s: State, n: int): State
    requires 0 <= n < |s.nodes|
  {
    var node := s.nodes[n];
    var es := seq(|s.entries|, e requires 0 <= e < |s.entries| =>
                  if e in node.failed && s.entries[e].where == Failed then s.entries[e].(where := Live)
                  else s.entries[e]);
    s.(entries := es, nodes := s.nodes[n := node.(live := node.live + Retry(s.entries, node.failed), failed := [])])
  }

  /** Nothing is listed anywhere in what is left of the tree below n: an empty list of debts. */
  ghost predicate NoDebts(ns: seq<Node>, es: seq<Entry>, n: int)
    decreases |ns| - n, 1
  {
    && 0 <= n < |ns| && ns[n].pending == {}
    && (forall i :: 0 <= i < |ns[n].failed| ==> NoDebt(ns, es, n, ns[n].failed[i], Failed))
    && (forall e :: e in ns[n].active ==> NoDebt(ns, es, n, e, Active))
    && (forall i :: 0 <= i < |ns[n].live| ==> NoDebt(ns, es, n, ns[n].live[i], Live))
  }

  ghost predicate NoDebt(ns: seq<Node>, es: seq<Entry>, n: int, e: int, w: Where)
    requires 0 <= n < |ns|
    decreases |ns| - n, 0
  {
    0 <= e < |es| && es[e].where == w ==> n < es[e].child < |ns| && NoDebts(ns, es, es[e].child)
  }
}
