/** What no step takes back: releases, reports, attempts; and what every flight uses up (scope.ts, reverse order). */
module ScopeProgress {
  import opened Sequences
  import opened ScopeState
  import opened ScopeCustody
  import opened ScopeSteps
  import opened ScopeFlights
  import opened ScopeRuns
  import opened ScopeProtocol

  /** A flight past its start. */
  ghost predicate Started(ns: seq<Node>, n: int) {
    0 <= n < |ns| && ns[n].flight.InFlight? && ns[n].flight.phase != Opened && ns[n].flight.phase != Queued
  }

  /** What a flight has left to do: a pending setup may still push one registration. */
  ghost function Work(s: State, n: int): int
    requires 0 <= n < |s.nodes|
  {
    2 * |s.nodes[n].pending| + |Compact(s.entries, s.nodes[n].live)|
  }

  /** x stands above y in the list. */
  ghost predicate Above(live: seq<int>, x: int, y: int) {
    exists i, j :: 0 <= i < j < |live| && live[i] == y && live[j] == x
  }

  /** Nothing is left to attempt: x is gone, or n's flight has attempted it. */
  ghost predicate Past(s: State, n: int, x: int)
    requires 0 <= n < |s.nodes|
  {
    IsGone(s.entries, x) || (s.nodes[n].flight.InFlight? && x in s.nodes[n].flight.attempted)
  }

  /**
   * The list of n only gains what is new, and what stands above something that stays keeps standing there until it
   * is past.
   */
  ghost predicate Ordered(s: State, t: State, n: int)
    requires 0 <= n < |s.nodes| && n < |t.nodes|
  {
    && (forall y :: y in t.nodes[n].live && y < |s.entries| ==> y in s.nodes[n].live)
    && (forall x, y ::
      y < |s.entries| && Above(s.nodes[n].live, x, y) && y in t.nodes[n].live ==>
        Above(t.nodes[n].live, x, y) || Past(t, n, x))
  }

  lemma OrderedSame(s: State, t: State, n: int)
    requires 0 <= n < |s.nodes| && n < |t.nodes| && t.nodes[n].live == s.nodes[n].live
    ensures Ordered(s, t, n)
  {
  }

  lemma OrderedPush(s: State, t: State, n: int)
    requires 0 <= n < |s.nodes| && n < |t.nodes| && t.nodes[n].live == s.nodes[n].live + [|s.entries|]
    ensures Ordered(s, t, n)
  {
    var l, m := s.nodes[n].live, t.nodes[n].live;
    forall x, y | Above(l, x, y) ensures Above(m, x, y) {
      var i, j :| 0 <= i < j < |l| && l[i] == y && l[j] == x;
      assert m[i] == y && m[j] == x;
    }
  }

  lemma {:induction false} CompactOrder(es: seq<Entry>, live: seq<int>, x: int, y: int)
    requires Above(live, x, y) && !IsGone(es, x) && !IsGone(es, y)
    ensures Above(Compact(es, live), x, y)
  {
    var i, j :| 0 <= i < j < |live| && live[i] == y && live[j] == x;
    var front, c := live[..|live| - 1], Compact(es, live);
    var d := Compact(es, front);
    CompactMembers(es, front);
    if j == |live| - 1 {
      assert front[i] == y;
      assert y in d;
      var k :| 0 <= k < |d| && d[k] == y;
      assert c[k] == y && c[|d|] == x;
    } else {
      assert front[i] == y && front[j] == x;
      CompactOrder(es, front, x, y);
      var a, b :| 0 <= a < b < |d| && d[a] == y && d[b] == x;
      assert c[a] == y && c[b] == x;
    }
  }

  lemma OrderedCompact(s: State, t: State, n: int)
    requires 0 <= n < |s.nodes| && n < |t.nodes| && t.nodes[n].live == Compact(t.entries, s.nodes[n].live)
    ensures Ordered(s, t, n)
  {
    hide Compact, Above;
    var l := s.nodes[n].live;
    CompactMembers(t.entries, l);
    forall x, y | Above(l, x, y) && y in t.nodes[n].live ensures Above(t.nodes[n].live, x, y) || Past(t, n, x) {
      if !IsGone(t.entries, x) { CompactOrder(t.entries, l, x, y); }
    }
  }

  lemma {:induction false} DroppedAreGone(es: seq<Entry>, live: seq<int>)
    ensures forall i :: |DropGone(es, live)| <= i < |live| ==> IsGone(es, live[i])
  {
    if live != [] && IsGone(es, live[|live| - 1]) { DroppedAreGone(es, live[..|live| - 1]); }
  }

  /** What stands above the top is gone. */
  lemma AboveTop(es: seq<Entry>, live: seq<int>, x: int, y: int)
    requires Distinct(live)
    requires DropGone(es, live) != []
    requires y == DropGone(es, live)[|DropGone(es, live)| - 1]
    requires Above(live, x, y)
    ensures IsGone(es, x)
  {
    DroppedAreGone(es, live);
    var d := DropGone(es, live);
    hide DropGone;
    assert live[|d| - 1] == y;
  }

  lemma PoppedOrder(es: seq<Entry>, live: seq<int>, x: int, y: int)
    requires Distinct(live) && DropGone(es, live) != []
    ensures var d := DropGone(es, live);
      Above(live, x, y) && y in d[..|d| - 1] ==> Above(d[..|d| - 1], x, y) || x == d[|d| - 1] || IsGone(es, x)
  {
    DroppedAreGone(es, live);
    var d := DropGone(es, live);
    hide DropGone;
    var m := d[..|d| - 1];
    if Above(live, x, y) && y in m {
      var i, j :| 0 <= i < j < |live| && live[i] == y && live[j] == x;
      var k :| 0 <= k < |m| && m[k] == y;
      assert live[k] == y;
      if j < |m| { assert m[i] == y && m[j] == x; }
      else if j == |m| { assert d[j] == live[j]; }
    }
  }

  lemma OrderedAttempt(s: State, n: int)
    requires CanAttempt(s, n) && Held(s.entries, n, s.nodes[n]) && 0 <= Top(s, n) < |s.entries|
    ensures Ordered(s, Attempt(s, n), n)
  {
    TopIsLive(s, n);
    hide DropGone, Compact, Above, Held;
    HeldDistinct(s.entries, n, s.nodes[n]);
    var t, d := Attempt(s, n), DropGone(s.entries, s.nodes[n].live);
    forall x, y | Above(s.nodes[n].live, x, y) && y in t.nodes[n].live
      ensures Above(t.nodes[n].live, x, y) || Past(t, n, x) {
      PoppedOrder(s.entries, s.nodes[n].live, x, y);
    }
  }

  lemma HeldDistinct(es: seq<Entry>, n: int, node: Node)
    requires Held(es, n, node)
    ensures Distinct(node.live) && forall e :: e in node.live ==> 0 <= e < |es|
  {
    forall e | e in node.live ensures 0 <= e < |es| {
      var i :| 0 <= i < |node.live| && node.live[i] == e;
      assert Mine(es, n, node.live[i]);
    }
  }

  lemma OrderedJoin(s: State, t: State, u: State, n: int)
    requires 0 <= n < |s.nodes| && n < |t.nodes| && n < |u.nodes| && |s.entries| <= |t.entries| <= |u.entries|
    requires Ordered(s, t, n) && Ordered(t, u, n)
    requires forall e :: 0 <= e < |t.entries| ==> (t.entries[e].where == Gone ==> u.entries[e].where == Gone)
    requires t.nodes[n].flight.InFlight? ==>
      u.nodes[n].flight.InFlight? && t.nodes[n].flight.attempted <= u.nodes[n].flight.attempted
    ensures Ordered(s, u, n)
  {
    hide Above;
  }

  /** n's flight goes on: what it has attempted stays attempted, in order, and its work does not grow. */
  ghost predicate GoesOn(s: State, t: State, n: int)
    requires 0 <= n < |s.nodes|
  {
    s.nodes[n].flight.InFlight? ==>
      && n < |t.nodes| && t.nodes[n].flight.InFlight? && s.nodes[n].flight.attempted <= t.nodes[n].flight.attempted
      && (Started(s.nodes, n) ==> Started(t.nodes, n)) && Work(t, n) <= Work(s, n) && Ordered(s, t, n)
  }

  /** From s to t nothing is taken back, except that the flight of `settled` may end. */
  ghost predicate Progress(s: State, t: State, settled: int) {
    && |s.nodes| <= |t.nodes| && |s.entries| <= |t.entries| && s.spent <= t.spent
    && (forall n :: 0 <= n < |s.nodes| ==> t.nodes[n].up == s.nodes[n].up)
    && (forall e :: 0 <= e < |s.entries| ==>
          && t.entries[e].owner == s.entries[e].owner && t.entries[e].child == s.entries[e].child
          && (s.entries[e].where == Gone ==> t.entries[e].where == Gone))
    && (forall n :: 0 <= n < |s.nodes| && n != settled ==> GoesOn(s, t, n))
  }

  lemma ProgressJoin(s: State, t: State, u: State, settled: int)
    requires Progress(s, t, settled) && Progress(t, u, settled)
    ensures Progress(s, u, settled)
  {
    hide Work, Ordered;
    forall n | 0 <= n < |s.nodes| && n != settled ensures GoesOn(s, u, n) {
      assert GoesOn(s, t, n) && GoesOn(t, u, n);
      if s.nodes[n].flight.InFlight? { OrderedJoin(s, t, u, n); }
    }
  }

  lemma WorkSame(s: State, t: State, n: int)
    requires 0 <= n < |s.nodes| && n < |t.nodes| && Held(s.entries, n, s.nodes[n])
    requires t.nodes[n].live == s.nodes[n].live && t.nodes[n].pending == s.nodes[n].pending
    requires forall e ::
      Mine(s.entries, n, e) ==> 0 <= e < |t.entries| && (s.entries[e].where != Gone <==> t.entries[e].where != Gone)
    ensures Work(t, n) == Work(s, n)
  {
    assert forall i :: 0 <= i < |s.nodes[n].live| ==> Mine(s.entries, n, s.nodes[n].live[i]);
    hide Compact;
    CompactSame(s.entries, t.entries, s.nodes[n].live);
  }

  /** A change within scope n is progress when n's own flight, if any, goes on. */
  lemma LocalProgress(s: State, n: int, node: Node, fs: seq<Entry>, settled: int)
    requires Core(s) && 0 <= n < |s.nodes| && OwnChange(s, n, fs) && node.up == s.nodes[n].up
    requires n != settled ==> GoesOn(s, Changed(s, n, node, fs), n)
    ensures Progress(s, Changed(s, n, node, fs), settled)
  {
    hide Compact, Lists, Linked, AllKept, AllLanes, Sealed, SpentTrees, Work, Ordered;
    var t := Changed(s, n, node, fs);
    forall m | 0 <= m < |s.nodes| && m != settled ensures GoesOn(s, t, m) {
      if m != n {
        assert Held(s.entries, m, s.nodes[m]);
        WorkSame(s, t, m);
        OrderedSame(s, t, m);
      }
    }
  }

  lemma FlyProgress(s: State, n: int, flight: Flight, settled: int)
    requires Core(s) && 0 <= n < |s.nodes|
    requires n != settled && s.nodes[n].flight.InFlight? ==>
      flight.InFlight? && s.nodes[n].flight.attempted <= flight.attempted
        && (Started(s.nodes, n) ==> flight.phase != Opened && flight.phase != Queued)
    ensures Progress(s, Fly(s, n, flight), settled)
  {
    hide Compact, Lists, Linked, AllKept, AllLanes, Sealed, SpentTrees, Ordered;
    OrderedSame(s, Fly(s, n, flight), n);
    LocalProgress(s, n, s.nodes[n].(flight := flight), s.entries, settled);
  }

  lemma RequestProgress(s: State, n: int)
    requires Core(s) && 0 <= n < |s.nodes|
    ensures Progress(s, Request(s, n), -1)
  {
    hide Core, Compact, Visited, Ordered;
    forall m | 0 <= m < |s.nodes| ensures Ordered(s, Request(s, n), m) { OrderedSame(s, Request(s, n), m); }
  }

  lemma ReopenProgress(s: State, n: int)
    requires Core(s) && 0 <= n < |s.nodes| && s.nodes[n].flight == NoFlight
    ensures Progress(s, Reopen(s, n), -1)
  {
    hide Compact, Retry, Core;
    ReopenChange(s, n);
    var t := Reopen(s, n);
    LocalProgress(s, n, t.nodes[n], t.entries, -1);
  }

  /** Detaching leaves each list as it was or compacts it. */
  lemma DetachLive(s: State, n: int, m: int)
    requires Linked(s.nodes, s.entries) && 0 <= n < |s.nodes| && !s.nodes[n].detached && 0 <= m < |s.nodes|
    ensures var t := Detach(s, n);
            && |t.nodes| == |s.nodes| && t.nodes[m].pending == s.nodes[m].pending
            && (t.nodes[m].live == s.nodes[m].live || t.nodes[m].live == Compact(t.entries, s.nodes[m].live))
  {
    if n > 0 { LinkedChild(s, n); }
    hide Linked, Compact, Under, Tree;
  }

  lemma DetachWork(s: State, n: int, m: int)
    requires Core(s) && 0 <= n < |s.nodes| && !s.nodes[n].detached && 0 <= m < |s.nodes|
    ensures m < |Detach(s, n).nodes| && Work(Detach(s, n), m) <= Work(s, m)
  {
    hide AllKept, AllLanes, Sealed, SpentTrees, Compact, Detach, Ordered;
    DetachShape(s, n);
    DetachLive(s, n, m);
    var t, live := Detach(s, n), s.nodes[m].live;
    CompactTwice(t.entries, live);
    if n > 0 {
      assert Held(s.entries, m, s.nodes[m]);
      CountOneGone(s.entries, s.nodes[n].entry, live);
    }
  }

  lemma Stays(s: State)
    ensures Progress(s, s, -1)
  {
    hide Ordered;
    forall m | 0 <= m < |s.nodes| ensures Ordered(s, s, m) { OrderedSame(s, s, m); }
  }

  lemma DetachOnce(s: State, n: int)
    requires Core(s) && Linked(s.nodes, s.entries) && 0 <= n < |s.nodes| && s.nodes[n].detached
    ensures Detach(s, n) == s
  {
    hide Core, Linked;
  }

  lemma DetachProgress(s: State, n: int)
    requires Core(s) && Linked(s.nodes, s.entries) && 0 <= n < |s.nodes|
    ensures Progress(s, Detach(s, n), -1)
  {
    hide Core, Linked, Detach, GoesOn, Tree;
    if s.nodes[n].detached {
      DetachOnce(s, n);
      Stays(s);
    } else {
      DetachGoesOn(s, n);
      DetachShape(s, n);
      DetachFlights(s, n);
      DetachEntries(s, n);
    }
  }

  lemma DetachEntries(s: State, n: int)
    requires Core(s) && Linked(s.nodes, s.entries) && 0 <= n < |s.nodes| && !s.nodes[n].detached
    ensures var t := Detach(s, n);
            && |t.entries| == |s.entries|
            && forall e :: 0 <= e < |s.entries| ==>
                 && t.entries[e].owner == s.entries[e].owner && t.entries[e].child == s.entries[e].child
                 && (s.entries[e].where == Gone ==> t.entries[e].where == Gone)
  {
    hide Core, Linked, Detach, Tree, SameNodes;
    DetachShape(s, n);
    if n > 0 { LinkedKnown(s, n); }
  }

  lemma DetachGoesOn(s: State, n: int)
    requires Core(s) && Linked(s.nodes, s.entries) && 0 <= n < |s.nodes| && !s.nodes[n].detached
    ensures forall m :: 0 <= m < |s.nodes| ==> GoesOn(s, Detach(s, n), m)
  {
    hide Core, Detach, Work, Ordered, Linked;
    DetachFlights(s, n);
    forall m | 0 <= m < |s.nodes| ensures GoesOn(s, Detach(s, n), m) {
      DetachWork(s, n, m);
      DetachOrder(s, n, m);
    }
  }

  lemma DetachOrder(s: State, n: int, m: int)
    requires Linked(s.nodes, s.entries) && 0 <= n < |s.nodes| && !s.nodes[n].detached && 0 <= m < |s.nodes|
    ensures m < |Detach(s, n).nodes| && Ordered(s, Detach(s, n), m)
  {
    hide Linked, Detach, Compact, Ordered;
    DetachLive(s, n, m);
    if Detach(s, n).nodes[m].live == s.nodes[m].live {
      OrderedSame(s, Detach(s, n), m);
    } else {
      OrderedCompact(s, Detach(s, n), m);
    }
  }

  lemma LinkedKnown(s: State, n: int)
    requires Core(s) && 0 < n < |s.nodes|
    ensures 0 <= s.nodes[n].entry < |s.entries|
  {
    GoneDetached(s, n);
  }

  lemma OpenProgress(s: State, n: int)
    requires Core(s) && 0 <= n < |s.nodes| && s.nodes[n].flight == NoFlight && s.nodes[n].requested
    ensures Linked(s.nodes, s.entries)
    ensures Linked(Reopen(s, n).nodes, Reopen(s, n).entries)
    ensures Progress(s, Open(s, n), -1)
  {
    hide Core, Reopen, Linked, Detach, Retry, Compact, Under, Progress;
    OpenCore(s, n);
    ReopenCore(s, n);
    ReopenProgress(s, n);
    ReopenFlies(s, n);
    var t := Reopen(s, n);
    if |t.nodes[n].live| == t.nodes[n].tombstones && t.nodes[n].pending == {} {
      DetachProgress(t, n);
    } else {
      FlyProgress(t, n, InFlight(Opened, {}), -1);
    }
    ProgressJoin(s, t, Open(s, n), -1);
  }

  lemma SealProgress(s: State, n: int)
    requires Core(s) && 0 <= n < |s.nodes|
    ensures Progress(s, Seal(s, n), -1)
  {
    hide Core, Request, Open, Linked, Under, Progress;
    RequestCore(s, n);
    RequestFlies(s, n);
    RequestProgress(s, n);
    var t := Request(s, n);
    if t.nodes[n].flight == NoFlight {
      UnderSelf(s, n);
      OpenProgress(t, n);
      ProgressJoin(s, t, Open(t, n), -1);
    }
  }

  // ---------- the steps ----------

  lemma AttemptProgress(s: State, n: int)
    requires Core(s) && CanAttempt(s, n)
    ensures 0 <= Top(s, n) < |s.entries| && Progress(s, Attempt(s, n), -1)
    ensures Work(Attempt(s, n), n) < Work(s, n)
    ensures var e := Top(s, n);
      e !in s.nodes[n].flight.attempted && Attempt(s, n).nodes[n].flight.InFlight?
        && e in Attempt(s, n).nodes[n].flight.attempted
  {
    hide AllKept, AllLanes, Sealed, SpentTrees, Linked, Lists, Compact, DropGone, Top;
    assert Held(s.entries, n, s.nodes[n]);
    TopIsLive(s, n);
    AttemptLength(s, n);
    AttemptChange(s, n);
    OrderedAttempt(s, n);
    hide Held, AllHeld, Core, OwnChange, Ordered;
    var t := Attempt(s, n);
    LocalProgress(s, n, t.nodes[n], t.entries, -1);
  }

  lemma AttemptLength(s: State, n: int)
    requires CanAttempt(s, n) && Held(s.entries, n, s.nodes[n]) && 0 <= Top(s, n) < |s.entries|
    ensures var t := Attempt(s, n); |Compact(t.entries, t.nodes[n].live)| < |Compact(s.entries, s.nodes[n].live)|
  {
    TopIsLive(s, n);
    AttemptCounts(s.entries, s.nodes[n].live, Top(s, n));
    hide Compact, DropGone, Lists;
  }

  lemma ResolveProgress(s: State, n: int, failed: bool)
    requires Core(s) && CanResolve(s, n, failed)
    ensures Progress(s, Resolve(s, n, failed), -1)
  {
    hide Core, Compact, Lists, Ordered;
    ResolveChange(s, n, failed);
    var t := Resolve(s, n, failed);
    ResolveWork(s, n, failed);
    OrderedSame(s, t, n);
    LocalProgress(s, n, t.nodes[n], t.entries, -1);
  }

  lemma ResolveWork(s: State, n: int, failed: bool)
    requires Core(s) && CanResolve(s, n, failed)
    ensures Work(Resolve(s, n, failed), n) == Work(s, n)
  {
    hide AllKept, AllLanes, Sealed, SpentTrees, Linked, Compact;
    assert Held(s.entries, n, s.nodes[n]);
    AtWork(s, n);
    hide Core, AllHeld;
    var e, t := s.nodes[n].flight.phase.entry, Resolve(s, n, failed);
    assert forall i :: 0 <= i < |s.nodes[n].live| ==> s.entries[s.nodes[n].live[i]].where in {Live, Gone};
    CompactSame(s.entries, t.entries, s.nodes[n].live);
  }

  lemma AcquireProgress(s: State, n: int, setup: set<int>)
    requires Core(s) && 0 <= n < |s.nodes| && n !in s.spent
    requires s.nodes[n].flight.InFlight? ==> exists p :: setup == {p} && p in s.nodes[n].pending
    ensures Progress(s, Acquire(s, n, setup), -1)
  {
    hide Core, Compact, Lists, Ordered;
    var t := Acquire(s, n, setup);
    AcquireWork(s, n, setup);
    OrderedPush(s, t, n);
    LocalProgress(s, n, t.nodes[n], t.entries, -1);
  }

  lemma AcquireWork(s: State, n: int, setup: set<int>)
    requires Core(s) && 0 <= n < |s.nodes|
    requires s.nodes[n].flight.InFlight? ==> exists p :: setup == {p} && p in s.nodes[n].pending
    ensures s.nodes[n].flight.InFlight? ==> Work(Acquire(s, n, setup), n) <= Work(s, n)
  {
    hide AllKept, AllLanes, Sealed, SpentTrees, Linked, Compact;
    assert Held(s.entries, n, s.nodes[n]);
    hide Core, AllHeld;
    ListPush(s.entries, n, s.nodes[n].live, Entry(n, -1, Live));
    if s.nodes[n].flight.InFlight? {
      var p :| setup == {p} && p in s.nodes[n].pending;
      assert s.nodes[n].pending == (s.nodes[n].pending - {p}) + {p};
    }
  }

  lemma PendProgress(s: State, n: int, pending: set<int>)
    requires Core(s) && 0 <= n < |s.nodes| && (n in s.spent ==> pending == {})
    requires s.nodes[n].flight.InFlight? ==> |pending| <= |s.nodes[n].pending|
    ensures Progress(s, Pend(s, n, pending), -1)
  {
    hide Core, Compact, Ordered;
    OrderedSame(s, Pend(s, n, pending), n);
    LocalProgress(s, n, s.nodes[n].(pending := pending), s.entries, -1);
  }

  lemma AdoptProgress(s: State, n: int)
    requires Core(s) && 0 <= n < |s.nodes| && !s.nodes[n].requested
    ensures Progress(s, Adopt(s, n), -1)
  {
    hide AllKept, AllLanes, Sealed, SpentTrees, Linked, Compact, Work, Lists, Ordered;
    var t := Adopt(s, n);
    forall m | 0 <= m < |s.nodes| ensures GoesOn(s, t, m) {
      assert Held(s.entries, m, s.nodes[m]);
      if m != n {
        WorkSame(s, t, m);
        OrderedSame(s, t, m);
      }
    }
  }

  lemma CallProgress(s: State, t: State, u: State, settled: int)
    requires Progress(s, t, settled) && u.nodes == t.nodes && u.entries == t.entries && u.spent == t.spent
    ensures Progress(s, u, settled)
  {
    hide Compact, Above;
    forall n | 0 <= n < |s.nodes| && n != settled ensures GoesOn(s, u, n) { assert GoesOn(s, t, n); }
  }

  ghost function Settled(a: Action): int {
    if a.SettleFlight? then a.node else -1
  }

  lemma ReachProgress(s: State, n: int, phase: Phase)
    requires Core(s)
    requires phase == Queued || phase == Running
    requires InPhase(s.nodes, n, Opened) || InPhase(s.nodes, n, Queued)
    ensures Progress(s, Reach(s, n, phase), -1)
  {
    hide Core;
    FlyProgress(s, n, InFlight(phase, s.nodes[n].flight.attempted), -1);
  }

  lemma ReturningProgress(s: State, a: Action)
    requires Valid(s)
    requires Enabled(s, a)
    requires a.AbortSetups? || a.LeaveListeners? || a.LeaveClose? || a.StartFlight? || a.LeaveDrain?
    ensures Progress(s, Step(s, a), -1)
  {
    hide Core, Progress, Starts;
    Parts(s);
    Stays(s);
    match a
    case AbortSetups => CallProgress(s, s, Step(s, a), -1);
    case LeaveListeners => CallProgress(s, s, Step(s, a), -1);
    case LeaveDrain => CallProgress(s, s, Step(s, a), -1);
    case StartFlight =>
      StartsQuietly(s);
      ReachProgress(s, s.queue[s.cursor], Running);
      CallProgress(s, Reach(s, s.queue[s.cursor], Running), Step(s, a), -1);
    case LeaveClose =>
      var f := s.stack[|s.stack| - 1];
      if f.started {
        LastOpened(s);
        SameCalls(s, Pop(s));
        ReachProgress(Pop(s), f.node, Queued);
        CallProgress(s, s, Pop(s), -1);
        ProgressJoin(s, Pop(s), Reach(Pop(s), f.node, Queued), -1);
        CallProgress(s, Reach(Pop(s), f.node, Queued), Step(s, a), -1);
      } else {
        CallProgress(s, s, Step(s, a), -1);
      }
  }

  lemma LastOpened(s: State)
    requires Valid(s) && CanReturn(s) && s.stack[|s.stack| - 1].started
    ensures InPhase(s.nodes, s.stack[|s.stack| - 1].node, Opened)
  {
    hide Core;
  }

  lemma FewerPending(pending: set<int>, p: int)
    ensures |pending - {p}| <= |pending|
  {
    assert pending == (pending - {p}) + (pending * {p});
  }

  lemma RegisteringProgress(s: State, a: Action)
    requires Valid(s)
    requires Enabled(s, a)
    requires a.AnnounceSetup? || a.FailSetup? || a.FinishSetup? || a.UseResource? || a.MakeChild?
    ensures Progress(s, Step(s, a), -1)
  {
    hide Core, Progress, Starts;
    var n := a.node;
    NotSpent(s, n);
    if s.nodes[n].flight.InFlight? { FlyingIsRequested(s, n); }
    match a
    case AnnounceSetup(_, p) => PendProgress(s, n, s.nodes[n].pending + {p});
    case FailSetup(_, p) => FewerPending(s.nodes[n].pending, p); PendProgress(s, n, s.nodes[n].pending - {p});
    case FinishSetup(_, p) => AcquireProgress(s, n, {p});
    case UseResource(_) => AcquireProgress(s, n, {});
    case MakeChild(_) => AdoptProgress(s, n);
  }

  lemma CloseProgress(s: State, n: int, notify: bool)
    requires Core(s) && 0 <= n < |s.nodes|
    ensures Progress(s, CloseNow(s, n, notify), -1)
  {
    hide Core, Progress, Seal;
    SealFacts(s, n);
    SealProgress(s, n);
    CallProgress(s, Seal(s, n), CloseNow(s, n, notify), -1);
  }

  lemma JoinProgress(s: State, n: int, notify: bool)
    requires Core(s) && CanAttempt(s, n)
    ensures Progress(s, JoinChild(s, n, notify), -1)
    ensures n < |JoinChild(s, n, notify).nodes|
    ensures JoinChild(s, n, notify).nodes[n].flight.InFlight? && Work(JoinChild(s, n, notify), n) < Work(s, n)
    ensures 0 <= Top(s, n) < |s.entries|
    ensures Top(s, n) !in s.nodes[n].flight.attempted
    ensures Top(s, n) in JoinChild(s, n, notify).nodes[n].flight.attempted
  {
    hide Core, Seal, Top, DropGone, Work, OthersFly;
    AttemptProgress(s, n);
    AttemptJoins(s, n);
    AttemptCore(s, n);
    var t, e := Attempt(s, n), Top(s, n);
    if t.entries[e].child != -1 {
      var c := t.entries[e].child;
      SealFacts(t, c);
      SealProgress(t, c);
      var u := Seal(t, c);
      FlightKept(t, u, n, c);
      var flight :=
        InFlight(Joining(e, if u.nodes[c].flight.InFlight? then None else Some(true)), u.nodes[n].flight.attempted);
      FlyProgress(u, n, flight, -1);
      ProgressJoin(t, u, Fly(u, n, flight), -1);
      ProgressJoin(s, t, Fly(u, n, flight), -1);
      CallProgress(s, Fly(u, n, flight), JoinChild(s, n, notify), -1);
      CallProgress(t, Fly(u, n, flight), JoinChild(s, n, notify), -1);
      assert GoesOn(t, JoinChild(s, n, notify), n);
    }
  }

  lemma FlightKept(t: State, u: State, n: int, c: int)
    requires OthersFly(t, u, c) && 0 <= n < |t.nodes| && n != c
    ensures |u.nodes| == |t.nodes| && u.nodes[n].flight == t.nodes[n].flight
  {
  }

  lemma EndProgress(s: State, n: int)
    requires Core(s) && CanSettle(s, n)
    ensures Progress(s, End(s, n), n)
  {
    hide Core, DropGone, Progress, Held, Lane;
    ToldFirst(s, n);
    var t := if Waiting(s, n) then Tell(s, s.nodes[n].up, Some(false)) else s;
    if Waiting(s, n) {
      var p := s.nodes[n].up;
      FlyProgress(s, p, InFlight(Joining(s.nodes[p].flight.phase.entry, Some(false)), s.nodes[p].flight.attempted), n);
    } else {
      StaysBut(s, n);
    }
    var node := t.nodes[n];
    LocalProgress(t, n, node.(live := [], tombstones := node.tombstones - |node.live|, flight := NoFlight),
      t.entries, n);
    ProgressJoin(s, t, End(s, n), n);
  }

  lemma StaysBut(s: State, n: int)
    ensures Progress(s, s, n)
  {
    hide Progress;
    Stays(s);
    Weaken(s, s, n);
  }

  lemma Weaken(s: State, t: State, n: int)
    requires Progress(s, t, -1)
    ensures Progress(s, t, n)
  {
    hide GoesOn;
  }

  lemma SettleProgress(s: State, n: int)
    requires Core(s) && CanSettle(s, n)
    ensures Progress(s, Settle(s, n), n)
  {
    hide Core, DropGone, Progress, Tell, Detach, End, NoDebts, Waiting;
    EndCore(s, n);
    EndFacts(s, n);
    EndProgress(s, n);
    var t := End(s, n);
    if NoDebts(t.nodes, t.entries, n) {
      EndLinked(t);
      FlyingIsRequested(s, n);
      DetachWithoutDebts(t, n);
      DetachProgress(t, n);
      var u := Detach(t, n);
      Weaken(t, u, n);
      ProgressJoin(s, t, u, n);
      HearProgress(u, s.nodes[n].up);
      Weaken(u, Hear(u, s.nodes[n].up), n);
      ProgressJoin(s, u, Hear(u, s.nodes[n].up), n);
    }
  }

  lemma HearProgress(s: State, p: int)
    requires Core(s)
    ensures Progress(s, Hear(s, p), -1)
  {
    hide Core, Progress;
    Stays(s);
    if 0 <= p < |s.nodes| && s.nodes[p].flight.InFlight? && s.nodes[p].flight.phase.Joining? {
      FlyProgress(s, p, InFlight(Joining(s.nodes[p].flight.phase.entry, Some(true)), s.nodes[p].flight.attempted), -1);
    }
  }

  /** No step takes back a release, a report or an attempt, and no flight's work grows. */
  lemma StepProgress(s: State, a: Action)
    requires Valid(s) && Enabled(s, a)
    ensures Progress(s, Step(s, a), Settled(a))
  {
    hide Valid, Core, Starts, Step, Enabled, Progress;
    Parts(s);
    match a
    case AnnounceSetup(_, _) => RegisteringProgress(s, a);
    case FailSetup(_, _) => RegisteringProgress(s, a);
    case FinishSetup(_, _) => RegisteringProgress(s, a);
    case UseResource(_) => RegisteringProgress(s, a);
    case MakeChild(_) => RegisteringProgress(s, a);
    case AbortSetups => ReturningProgress(s, a);
    case LeaveListeners => ReturningProgress(s, a);
    case LeaveDrain => ReturningProgress(s, a);
    case LeaveClose => ReturningProgress(s, a);
    case StartFlight => ReturningProgress(s, a);
    case CloseScope(n, notify) => FlightSteps(s, a);
    case AttemptTop(n, notify) => FlightSteps(s, a);
    case GetOutcome(n, failed) => FlightSteps(s, a);
    case SettleFlight(n) => FlightSteps(s, a);
  }

  lemma FlightSteps(s: State, a: Action)
    requires Valid(s) && Enabled(s, a) && (a.CloseScope? || a.AttemptTop? || a.GetOutcome? || a.SettleFlight?)
    ensures Progress(s, Step(s, a), Settled(a))
  {
    hide Core, Starts, Progress;
    match a
    case CloseScope(n, notify) => CloseProgress(s, n, notify);
    case AttemptTop(n, notify) => JoinProgress(s, n, notify);
    case GetOutcome(n, failed) => ResolveProgress(s, n, failed);
    case SettleFlight(n) => SettleProgress(s, n);
  }
}
