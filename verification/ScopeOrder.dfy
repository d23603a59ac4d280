/** The order in which a scope releases: the newest first, and a retry in the order of the failures (scope.ts). */
module ScopeOrder {
  import opened Sequences
  import opened ScopeState
  import opened ScopeCustody
  import opened ScopeSteps
  import opened ScopeFlights
  import opened ScopeRuns
  import opened ScopeProtocol
  import opened ScopeProgress
  import opened ScopeGuarantees

  // ---------- what a new flight finds ----------

  ghost predicate IsFailed(es: seq<Entry>, e: int) {
    0 <= e < |es| && es[e].where == Failed
  }

  ghost predicate NoneFailed(es: seq<Entry>, failed: seq<int>) {
    forall e :: e in failed ==> !IsFailed(es, e)
  }

  /**
   * Of what is still failed, what failed earlier stands above what failed later, and everything above what was
   * already waiting.
   */
  ghost predicate Retried(es: seq<Entry>, failed: seq<int>, before: seq<int>, now: seq<int>) {
    && (forall i, j :: 0 <= i < j < |failed| && IsFailed(es, failed[i]) && IsFailed(es, failed[j]) ==>
          Above(now, failed[i], failed[j]))
    && (forall x, y :: x in failed && IsFailed(es, x) && y in before ==> Above(now, x, y))
    && (NoneFailed(es, failed) ==> now == before)
  }

  lemma {:induction false} RetryOrder(es: seq<Entry>, n: int, failed: seq<int>)
    requires Lists(es, n, failed, Failed)
    ensures forall i, j :: 0 <= i < j < |failed| && IsFailed(es, failed[i]) && IsFailed(es, failed[j]) ==>
      Above(Retry(es, failed), failed[i], failed[j])
  {
    if failed != [] {
      var front, last, r := failed[..|failed| - 1], failed[|failed| - 1], Retry(es, failed);
      RetryOrder(es, n, front);
      RetryMembers(es, n, front);
      var rest := Retry(es, front);
      forall i, j | 0 <= i < j < |failed| && IsFailed(es, failed[i]) && IsFailed(es, failed[j])
        ensures Above(r, failed[i], failed[j]) {
        assert failed[i] == front[i];
        if j < |front| {
          assert failed[j] == front[j];
          if r != rest { AbovePushed([last], rest, failed[i], failed[j]); }
        } else {
          assert failed[i] in rest;
          AboveBoth([last], rest, failed[i], last);
        }
      }
    }
  }

  lemma {:induction false} NothingRetried(es: seq<Entry>, failed: seq<int>)
    requires NoneFailed(es, failed)
    ensures Retry(es, failed) == []
  {
    if failed != [] {
      assert failed[|failed| - 1] in failed;
      NothingRetried(es, failed[..|failed| - 1]);
    }
  }

  lemma AbovePushed(below: seq<int>, more: seq<int>, x: int, y: int)
    requires Above(more, x, y)
    ensures Above(below + more, x, y)
  {
    var i, j :| 0 <= i < j < |more| && more[i] == y && more[j] == x;
    assert (below + more)[|below| + i] == y && (below + more)[|below| + j] == x;
  }

  lemma AboveBoth(below: seq<int>, more: seq<int>, x: int, y: int)
    requires y in below && x in more
    ensures Above(below + more, x, y)
  {
    var i :| 0 <= i < |below| && below[i] == y;
    var j :| 0 <= j < |more| && more[j] == x;
    assert (below + more)[i] == y && (below + more)[|below| + j] == x;
  }

  /** Reopening a scope puts what is to be retried on top of its list, what failed first uppermost. */
  lemma ReopenOrder(s: State, n: int)
    requires Core(s) && 0 <= n < |s.nodes|
    ensures Retried(s.entries, s.nodes[n].failed, s.nodes[n].live, Reopen(s, n).nodes[n].live)
  {
    hide AllKept, AllLanes, Sealed, SpentTrees, Linked, Compact, Above;
    assert Held(s.entries, n, s.nodes[n]);
    var failed, live := s.nodes[n].failed, s.nodes[n].live;
    var back := Retry(s.entries, failed);
    RetryMembers(s.entries, n, failed);
    RetryOrder(s.entries, n, failed);
    if NoneFailed(s.entries, failed) { NothingRetried(s.entries, failed); }
    hide Retry, Core, Held, Lists;
    forall i, j | 0 <= i < j < |failed| && IsFailed(s.entries, failed[i]) && IsFailed(s.entries, failed[j])
      ensures Above(live + back, failed[i], failed[j]) {
      AbovePushed(live, back, failed[i], failed[j]);
    }
    forall x, y | x in failed && IsFailed(s.entries, x) && y in live ensures Above(live + back, x, y) {
      AboveBoth(live, back, x, y);
    }
    assert live + [] == live;
  }

  // ---------- what a step does to the lists of a scope ----------

  ghost predicate Rising(l: seq<int>) {
    forall i, j :: 0 <= i < j < |l| ==> l[i] < l[j]
  }

  ghost predicate SameFailures(s: State, t: State, m: int)
    requires 0 <= m < |s.nodes|
  {
    && m < |t.nodes| && t.nodes[m].failed == s.nodes[m].failed
    && forall e :: e in s.nodes[m].failed ==> (IsFailed(s.entries, e) <==> IsFailed(t.entries, e))
  }

  /** The lists of m are as they were. */
  ghost predicate Steady(s: State, t: State, m: int)
    requires 0 <= m < |s.nodes|
  {
    && SameFailures(s, t, m) && t.nodes[m].live == s.nodes[m].live
    && (t.nodes[m].flight.InFlight? <==> s.nodes[m].flight.InFlight?)
  }

  /** No flight of m opens: a list in the order of registration stays one, and failures are only added at the end. */
  ghost predicate Keeps(s: State, t: State, m: int)
    requires 0 <= m < |s.nodes|
  {
    && m < |t.nodes| && (t.nodes[m].flight.InFlight? ==> s.nodes[m].flight.InFlight?)
    && (Rising(s.nodes[m].live) ==> Rising(t.nodes[m].live)) && s.nodes[m].failed <= t.nodes[m].failed
    && (s.nodes[m].flight.NoFlight? ==> t.nodes[m].failed == s.nodes[m].failed)
  }

  /** A close of m that finds nothing to retry and nothing waiting. */
  ghost predicate Clears(s: State, t: State, m: int)
    requires 0 <= m < |s.nodes|
  {
    && m < |t.nodes| && t.nodes[m].failed == [] && NoneFailed(s.entries, s.nodes[m].failed)
    && (Rising(s.nodes[m].live) ==> Rising(t.nodes[m].live))
  }

  /** A flight of m opens, and takes over what has failed. */
  ghost predicate Renews(s: State, t: State, m: int)
    requires 0 <= m < |s.nodes|
  {
    && m < |t.nodes| && s.nodes[m].flight == NoFlight && t.nodes[m].flight.InFlight? && t.nodes[m].failed == []
    && Retried(s.entries, s.nodes[m].failed, s.nodes[m].live, t.nodes[m].live)
  }

  ghost predicate Turns(s: State, t: State, m: int)
    requires 0 <= m < |s.nodes|
  {
    Keeps(s, t, m) || (s.nodes[m].flight == NoFlight && Clears(s, t, m)) || Renews(s, t, m)
  }

  lemma SteadyFirst(s: State, t: State, u: State, m: int)
    requires 0 <= m < |s.nodes| && Steady(s, t, m) && Turns(t, u, m)
    ensures Turns(s, u, m)
  {
    hide Above, Rising;
  }

  lemma SteadyLast(s: State, t: State, u: State, m: int)
    requires 0 <= m < |s.nodes| && m < |t.nodes| && Turns(s, t, m) && Steady(t, u, m)
    ensures Turns(s, u, m)
  {
    hide Above, Rising, Retried;
  }

  lemma KeepsJoin(s: State, t: State, u: State, m: int)
    requires 0 <= m < |s.nodes| && Keeps(s, t, m) && Keeps(t, u, m)
    ensures Keeps(s, u, m)
  {
    hide Rising;
  }

  lemma KeepsSteady(s: State, t: State, u: State, m: int)
    requires 0 <= m < |s.nodes| && Keeps(s, t, m) && Steady(t, u, m)
    ensures Keeps(s, u, m)
  {
    hide Rising;
  }

  /** Calls come and go, and flights move on. */
  lemma FlySteady(s: State, n: int, flight: Flight, m: int)
    requires 0 <= n < |s.nodes| && 0 <= m < |s.nodes| && (flight.InFlight? <==> s.nodes[n].flight.InFlight?)
    ensures Steady(s, Fly(s, n, flight), m)
  {
  }

  lemma CallSteady(s: State, t: State, m: int)
    requires 0 <= m < |s.nodes| && t.nodes == s.nodes && t.entries == s.entries
    ensures Steady(s, t, m)
  {
  }

  lemma RisingPush(es: seq<Entry>, n: int, node: Node)
    requires Held(es, n, node) && Rising(node.live)
    ensures Rising(node.live + [|es|])
  {
    HeldDistinct(es, n, node);
    hide Held;
    forall i | 0 <= i < |node.live| ensures node.live[i] < |es| { assert node.live[i] in node.live; }
  }

  lemma {:induction false} RisingCompact(es: seq<Entry>, live: seq<int>)
    requires Rising(live)
    ensures Rising(Compact(es, live))
  {
    if live != [] {
      var front, last := live[..|live| - 1], live[|live| - 1];
      RisingCompact(es, front);
      CompactMembers(es, front);
      var c := Compact(es, front);
      forall i | 0 <= i < |c| ensures c[i] < last {
        assert c[i] in c;
        var k :| 0 <= k < |front| && front[k] == c[i];
        assert live[k] < live[|live| - 1];
      }
    }
  }

  lemma RegistersTurns(s: State, a: Action, m: int)
    requires Core(s) && Enabled(s, a) && 0 <= m < |s.nodes|
    requires a.AnnounceSetup? || a.FailSetup? || a.FinishSetup? || a.UseResource? || a.MakeChild?
    ensures Keeps(s, Registering(s, a), m)
  {
    hide AllKept, AllLanes, Sealed, SpentTrees, Linked, Lists, Compact;
    assert Held(s.entries, m, s.nodes[m]);
    hide Core, Held, AllHeld;
    if Rising(s.nodes[m].live) { RisingPush(s.entries, m, s.nodes[m]); }
    hide Rising;
  }

  lemma CallsTurns(s: State, a: Action, m: int)
    requires Enabled(s, a) && (a.AbortSetups? || a.LeaveListeners? || a.LeaveClose? || a.StartFlight? || a.LeaveDrain?)
    requires 0 <= m < |s.nodes|
    ensures Keeps(s, Returning(s, a), m)
  {
    hide Rising;
  }

  lemma ResolveTurns(s: State, n: int, failed: bool, m: int)
    requires CanResolve(s, n, failed) && 0 <= m < |s.nodes|
    ensures Keeps(s, Resolve(s, n, failed), m)
  {
    hide Rising;
  }

  lemma AttemptTurns(s: State, n: int, m: int)
    requires CanAttempt(s, n) && 0 <= Top(s, n) < |s.entries| && 0 <= m < |s.nodes|
    ensures Keeps(s, Attempt(s, n), m)
  {
    hide DropGone, Top;
    var d := DropGone(s.entries, s.nodes[n].live);
    assert d <= s.nodes[n].live;
    assert forall i :: 0 <= i < |d| ==> d[i] == s.nodes[n].live[i];
  }

  lemma DetachTurns(s: State, n: int, m: int)
    requires Core(s) && Linked(s.nodes, s.entries) && 0 <= n < |s.nodes| && 0 <= m < |s.nodes|
    ensures Keeps(s, Detach(s, n), m)
  {
    hide Core, Linked, Compact, Rising, Detach;
    if s.nodes[n].detached {
      DetachOnce(s, n);
    } else {
      DetachFlights(s, n);
      DetachLive(s, n, m);
      DetachFailed(s, n, m);
      if Rising(s.nodes[m].live) { RisingCompact(Detach(s, n).entries, s.nodes[m].live); }
    }
  }

  lemma DetachFailed(s: State, n: int, m: int)
    requires Core(s) && Linked(s.nodes, s.entries) && 0 <= n < |s.nodes| && 0 <= m < |s.nodes|
    ensures m < |Detach(s, n).nodes| && Detach(s, n).nodes[m].failed == s.nodes[m].failed
  {
    hide Core, Linked, Detach;
    if s.nodes[n].detached { DetachOnce(s, n); } else { DetachFailures(s, n, m); }
  }

  lemma DetachFailures(s: State, n: int, m: int)
    requires Linked(s.nodes, s.entries) && 0 <= n < |s.nodes| && !s.nodes[n].detached && 0 <= m < |s.nodes|
    ensures m < |Detach(s, n).nodes| && Detach(s, n).nodes[m].failed == s.nodes[m].failed
  {
    if n > 0 { LinkedChild(s, n); }
    hide Linked, Compact, Under, Tree;
  }

  lemma SettleTurns(s: State, n: int, m: int)
    requires Core(s) && CanSettle(s, n) && 0 <= m < |s.nodes|
    ensures Keeps(s, Settle(s, n), m)
  {
    hide Core, Linked, NoDebts, Detach, End, Keeps, Steady, DropGone, Waiting;
    EndCore(s, n);
    EndFacts(s, n);
    EndTurns(s, n, m);
    var t := End(s, n);
    if NoDebts(t.nodes, t.entries, n) {
      DetachTurns(t, n, m);
      KeepsJoin(s, t, Detach(t, n), m);
      DetachFlights(t, n);
      HearSteady(Detach(t, n), s.nodes[n].up, m);
      KeepsSteady(s, Detach(t, n), Hear(Detach(t, n), s.nodes[n].up), m);
    }
  }

  lemma EndTurns(s: State, n: int, m: int)
    requires CanSettle(s, n) && 0 <= m < |s.nodes|
    ensures Keeps(s, End(s, n), m)
  {
    hide DropGone;
  }

  lemma HearSteady(s: State, p: int, m: int)
    requires 0 <= m < |s.nodes|
    ensures Steady(s, Hear(s, p), m)
  {
  }

  /** Other scopes keep their lists when a scope is sealed; the scope itself may open a flight. */
  lemma SealTurns(s: State, n: int, m: int)
    requires Core(s) && 0 <= n < |s.nodes| && 0 <= m < |s.nodes|
    ensures m == n ==> Turns(s, Seal(s, n), m)
    ensures m != n ==> Keeps(s, Seal(s, n), m)
  {
    hide Core, Linked, Open, Visited, Under, Rising, Retried;
    RequestCore(s, n);
    RequestFlies(s, n);
    var t := Request(s, n);
    assert Steady(s, t, m);
    hide Request;
    if t.nodes[n].flight == NoFlight {
      UnderSelf(s, n);
      OpenTurns(t, n, m);
      hide Keeps, Clears, Renews, Steady;
      if m == n { SteadyFirst(s, t, Open(t, n), m); } else { SteadyKeeps(s, t, Open(t, n), m); }
    }
  }

  lemma SteadyKeeps(s: State, t: State, u: State, m: int)
    requires 0 <= m < |s.nodes| && Steady(s, t, m) && Keeps(t, u, m)
    ensures Keeps(s, u, m)
  {
    hide Rising;
  }

  lemma OpenTurns(s: State, n: int, m: int)
    requires Core(s) && 0 <= n < |s.nodes| && s.nodes[n].flight == NoFlight && s.nodes[n].requested
    requires 0 <= m < |s.nodes|
    ensures Linked(s.nodes, s.entries) && Linked(Reopen(s, n).nodes, Reopen(s, n).entries)
    ensures m == n ==> Turns(s, Open(s, n), m)
    ensures m != n ==> Keeps(s, Open(s, n), m)
  {
    hide Core, Linked, Detach, Retried, Rising, Compact, Retry;
    OpenCore(s, n);
    ReopenCore(s, n);
    ReopenOrder(s, n);
    var t := Reopen(s, n);
    if |t.nodes[n].live| == t.nodes[n].tombstones && t.nodes[n].pending == {} {
      NothingWaits(s, n);
      DetachTurns(t, n, m);
      if m != n { KeepsJoin(s, t, Detach(t, n), m); } else { DetachFailed(t, n, m); }
    }
  }

  /** A close that opens no flight had nothing to retry. */
  lemma NothingWaits(s: State, n: int)
    requires Core(s) && 0 <= n < |s.nodes| && s.nodes[n].flight == NoFlight
    requires |Reopen(s, n).nodes[n].live| == Reopen(s, n).nodes[n].tombstones
    ensures NoneFailed(s.entries, s.nodes[n].failed) && Reopen(s, n).nodes[n].live == s.nodes[n].live
  {
    hide AllKept, AllLanes, Sealed, SpentTrees, Linked, Compact, Above, Retry;
    ReopenCore(s, n);
    ReopenOrder(s, n);
    var t := Reopen(s, n);
    assert Held(s.entries, n, s.nodes[n]) && Held(t.entries, n, t.nodes[n]);
    RetryMembers(s.entries, n, s.nodes[n].failed);
    AllGone(t.entries, t.nodes[n].live);
    hide Core, AllHeld, Held;
    NoneOnTop(t.entries, s.nodes[n].live, Retry(s.entries, s.nodes[n].failed));
  }

  lemma FirstOnTop(below: seq<int>, more: seq<int>)
    ensures more != [] ==> (below + more)[|below|] in more
  {
    if more != [] { assert (below + more)[|below|] == more[0]; }
  }

  lemma NoneOnTop(es: seq<Entry>, below: seq<int>, more: seq<int>)
    requires forall i :: 0 <= i < |below + more| ==> IsGone(es, (below + more)[i])
    requires forall e :: e in more ==> !IsGone(es, e)
    ensures more == []
  {
    FirstOnTop(below, more);
  }

  lemma CloseTurns(s: State, n: int, notify: bool, m: int)
    requires Core(s) && 0 <= n < |s.nodes| && 0 <= m < |s.nodes|
    ensures Turns(s, CloseNow(s, n, notify), m)
  {
    hide Core, Seal, Keeps, Clears, Renews, Steady;
    SealFacts(s, n);
    SealTurns(s, n, m);
    CallSteady(Seal(s, n), CloseNow(s, n, notify), m);
    SteadyLast(s, Seal(s, n), CloseNow(s, n, notify), m);
  }

  /** Attempting changes no list of another scope. */
  lemma AttemptSteady(s: State, n: int, c: int)
    requires Core(s) && CanAttempt(s, n) && 0 <= Top(s, n) < |s.entries| && 0 <= c < |s.nodes| && c != n
    ensures Steady(s, Attempt(s, n), c)
  {
    hide AllKept, AllLanes, Sealed, SpentTrees, Linked, Compact, DropGone;
    assert Held(s.entries, n, s.nodes[n]) && Held(s.entries, c, s.nodes[c]);
    TopIsLive(s, n);
    hide Core, AllHeld, Top;
  }

  lemma JoinTurns(s: State, n: int, notify: bool, m: int)
    requires Core(s) && CanAttempt(s, n) && 0 <= m < |s.nodes|
    ensures Turns(s, JoinChild(s, n, notify), m)
  {
    hide Core, Seal, Top, DropGone, Keeps, Clears, Renews, Steady;
    TopIsHeld(s, n);
    AttemptCore(s, n);
    AttemptJoins(s, n);
    AttemptTurns(s, n, m);
    var t, e := Attempt(s, n), Top(s, n);
    if t.entries[e].child != -1 {
      var c := t.entries[e].child;
      SealFacts(t, c);
      SealTurns(t, c, m);
      var u := Seal(t, c);
      if m == c {
        AttemptSteady(s, n, c);
        SteadyFirst(s, t, u, m);
      } else {
        KeepsJoin(s, t, u, m);
      }
      JoinTold(t, u, n, c, e, m);
      var v := Tell(u, n, if u.nodes[c].flight.InFlight? then None else Some(true));
      SteadyLast(s, u, v, m);
      CallSteady(v, Call(t, v, c, notify), m);
      SteadyLast(s, v, Call(t, v, c, notify), m);
    }
  }

  lemma JoinTold(t: State, u: State, n: int, c: int, e: int, m: int)
    requires OthersFly(t, u, c) && 0 <= n < c < |t.nodes| && 0 <= m < |t.nodes|
    requires t.nodes[n].flight.InFlight? && t.nodes[n].flight.phase == Joining(e, Some(false))
    ensures Steady(u, Tell(u, n, if u.nodes[c].flight.InFlight? then None else Some(true)), m)
  {
  }

  lemma StepTurns(s: State, a: Action, m: int)
    requires Core(s) && Enabled(s, a) && 0 <= m < |s.nodes|
    ensures Turns(s, Step(s, a), m)
  {
    hide Core, Keeps, Clears, Renews, CloseNow, JoinChild, Resolve, Settle, CanAttempt, CanResolve, CanSettle,
         Registering, Returning;
    match a
    case CloseScope(n, notify) => CloseTurns(s, n, notify, m);
    case AttemptTop(n, notify) => JoinTurns(s, n, notify, m);
    case GetOutcome(n, failed) => ResolveTurns(s, n, failed, m);
    case SettleFlight(n) => SettleTurns(s, n, m);
    case AbortSetups => CallsTurns(s, a, m);
    case LeaveListeners => CallsTurns(s, a, m);
    case LeaveClose => CallsTurns(s, a, m);
    case StartFlight => CallsTurns(s, a, m);
    case LeaveDrain => CallsTurns(s, a, m);
    case AnnounceSetup(_, _) => RegistersTurns(s, a, m);
    case FailSetup(_, _) => RegistersTurns(s, a, m);
    case FinishSetup(_, _) => RegistersTurns(s, a, m);
    case UseResource(_) => RegistersTurns(s, a, m);
    case MakeChild(_) => RegistersTurns(s, a, m);
  }

  /** A step makes at most one scope, which holds nothing. */
  lemma StepNodes(s: State, a: Action, n: int)
    requires Core(s) && Enabled(s, a) && |s.nodes| <= n < |Step(s, a).nodes|
    ensures var node := Step(s, a).nodes[n]; node.live == [] && node.failed == [] && node.flight == NoFlight
  {
    hide Core, Seal, Settle, JoinChild, CanSettle, CanAttempt;
    match a
    case CloseScope(c, _) => SealFacts(s, c);
    case AttemptTop(c, notify) => JoinNodes(s, c, notify);
    case SettleFlight(c) => SettleFlies(s, c);
    case _ =>
  }

  lemma JoinNodes(s: State, n: int, notify: bool)
    requires Core(s) && CanAttempt(s, n)
    ensures |JoinChild(s, n, notify).nodes| == |s.nodes|
  {
    hide Core, Seal, DropGone, Top;
    AttemptCore(s, n);
    AttemptJoins(s, n);
    var t, e := Attempt(s, n), Top(s, n);
    if t.entries[e].child != -1 { SealFacts(t, t.entries[e].child); }
  }

  // ---------- over whole runs ----------

  /** Until its first flight settles, a scope's list is in the order of registration, and no flight is owed a retry. */
  lemma {:induction false} FirstFlight(ss: seq<State>, acts: seq<Action>, k: nat, n: int)
    requires Run(ss, acts) && k < |ss| && 0 <= n < |ss[k].nodes| && NotSettled(acts, 0, k, n)
    ensures Rising(ss[k].nodes[n].live) && (ss[k].nodes[n].flight == NoFlight ==> ss[k].nodes[n].failed == [])
  {
    hide Next, Valid, Core, Step, Enabled, Progress, Rising, GoesOn, Above;
    if k == 0 {
      BeginRising(n);
    } else {
      StepOfRun(ss, acts, k - 1);
      var s, t := ss[k - 1], ss[k];
      if n < |s.nodes| {
        FirstFlight(ss, acts, k - 1, n);
        StepTurns(s, acts[k - 1], n);
        Going(s, t, Settled(acts[k - 1]), n);
        FlightGoesOn(s, t, n);
      } else {
        StepNodes(s, acts[k - 1], n);
        NothingRises();
      }
    }
  }

  lemma BeginRising(n: int)
    requires 0 <= n < |Begin().nodes|
    ensures Rising(Begin().nodes[n].live) && Begin().nodes[n].failed == []
  {
  }

  lemma NothingRises()
    ensures Rising([])
  {
  }

  lemma FlightGoesOn(s: State, t: State, n: int)
    requires 0 <= n < |s.nodes| && GoesOn(s, t, n)
    ensures s.nodes[n].flight.InFlight? ==> n < |t.nodes| && t.nodes[n].flight.InFlight?
  {
  }

  /** The first flight of a scope attempts the newest first: what was registered later has been dealt with. */
  lemma NewestFirst(ss: seq<State>, acts: seq<Action>, j: nat, n: int, y: int)
    requires Run(ss, acts) && j < |acts| && NotSettled(acts, 0, j, n)
    requires acts[j].AttemptTop? && acts[j].node == n && CanAttempt(ss[j], n)
    requires Mine(ss[j].entries, n, y) && y > Top(ss[j], n)
    ensures ss[j].entries[y].where in {Failed, Gone}
  {
    hide Next, Valid, Core, Step, Enabled, Progress, DropGone;
    StepOfRun(ss, acts, j);
    FirstFlight(ss, acts, j, n);
    TopIsListed(ss[j], n);
    hide Top;
    NoneActive(ss[j], n, y);
    if ss[j].entries[y].where == Live { NoneLiveAbove(ss[j], n, y); }
  }

  /** While a flight can attempt something, nothing of its scope is being released. */
  lemma NoneActive(s: State, n: int, y: int)
    requires Core(s) && CanAttempt(s, n) && Mine(s.entries, n, y)
    ensures s.entries[y].where != Active
  {
    hide AllLanes, Sealed, SpentTrees, Linked, Lists, Compact, DropGone;
    assert Held(s.entries, n, s.nodes[n]) && Kept(s.nodes, s.entries, y);
  }

  lemma NoneLiveAbove(s: State, n: int, y: int)
    requires Core(s) && CanAttempt(s, n) && Rising(s.nodes[n].live) && Mine(s.entries, n, y) && y > Top(s, n)
    ensures s.entries[y].where != Live
  {
    hide AllLanes, Sealed, SpentTrees, Linked, Compact, DropGone, Above, Lists;
    TopIsListed(s, n);
    ListIsHeld(s, n);
    assert Kept(s.nodes, s.entries, y);
    if s.entries[y].where == Live {
      RisesAbove(s.nodes[n].live, y, Top(s, n));
      AboveTop(s.entries, s.nodes[n].live, y, Top(s, n));
    }
  }

  lemma RisesAbove(live: seq<int>, x: int, y: int)
    requires Rising(live) && x in live && y in live && x > y
    ensures Above(live, x, y)
  {
    var i :| 0 <= i < |live| && live[i] == y;
    var j :| 0 <= j < |live| && live[j] == x;
    assert i < j;
  }

  /** Step o opens a flight of n. */
  ghost predicate OpensAt(ss: seq<State>, o: nat, n: int) {
    && o + 1 < |ss| && 0 <= n < |ss[o].nodes| && ss[o].nodes[n].flight == NoFlight
    && n < |ss[o + 1].nodes| && ss[o + 1].nodes[n].flight.InFlight?
  }

  ghost predicate NoneOpens(ss: seq<State>, j: nat, o: nat, n: int) {
    forall k: nat :: j <= k < o ==> !OpensAt(ss, k, n)
  }

  /** At the attempt of y, the flight has already failed to release x. */
  ghost predicate FailedBefore(s: State, n: int, x: int, y: int) {
    CanAttempt(s, n) && Top(s, n) == y && x in s.nodes[n].failed
  }

  /** Until the next flight opens, the list of failures only grows at its end, as long as something in it is failed. */
  lemma {:induction false} FailuresStay(ss: seq<State>, acts: seq<Action>, j: nat, k: nat, n: int, x: int)
    requires Run(ss, acts) && j <= k < |ss| && NoneOpens(ss, j, k, n)
    requires 0 <= n < |ss[j].nodes| && x in ss[j].nodes[n].failed
    requires 0 <= x < |ss[k].entries| && ss[k].entries[x].where != Gone
    ensures n < |ss[k].nodes| && ss[j].nodes[n].failed <= ss[k].nodes[n].failed
  {
    hide Next, Valid, Core, Step, Enabled, Progress, Rising, Retried, GoesOn;
    if j < k {
      StepOfRun(ss, acts, k - 1);
      Onward(ss, acts, j, k - 1);
      Onward(ss, acts, k - 1, k);
      RunValid(ss, acts, j);
      Parts(ss[j]);
      ListedFailure(ss[j], n, x);
      FailuresStay(ss, acts, j, k - 1, n, x);
      StepTurns(ss[k - 1], acts[k - 1], n);
      ListedFailure(ss[k - 1], n, x);
      assert !OpensAt(ss, k - 1, n);
    }
  }

  lemma ListedFailure(s: State, n: int, x: int)
    requires Core(s) && 0 <= n < |s.nodes| && x in s.nodes[n].failed
    ensures 0 <= x < |s.entries| && (s.entries[x].where != Gone ==> IsFailed(s.entries, x))
  {
    hide AllKept, AllLanes, Sealed, SpentTrees, Linked, Compact;
    assert Held(s.entries, n, s.nodes[n]);
    var i :| 0 <= i < |s.nodes[n].failed| && s.nodes[n].failed[i] == x;
    assert Mine(s.entries, n, s.nodes[n].failed[i]);
  }

  /**
   * A retry goes in the order of the failures: of two registrations that are both still failed when the next flight
   * opens, the one that the last flight failed to release first is above the other.
   */
  lemma RetriedAbove(ss: seq<State>, acts: seq<Action>, j: nat, o: nat, n: int, x: int, y: int)
    requires Run(ss, acts) && j < o < |acts| && NoneOpens(ss, j, o, n) && OpensAt(ss, o, n)
    requires FailedBefore(ss[j], n, x, y)
    requires IsFailed(ss[o].entries, x) && IsFailed(ss[o].entries, y)
    ensures Above(ss[o + 1].nodes[n].live, x, y)
  {
    hide Next, Valid, Core, Step, Enabled, Progress, Rising, Above, Top, DropGone;
    StepOfRun(ss, acts, j);
    StepOfRun(ss, acts, o);
    FailuresStay(ss, acts, j, o, n, x);
    StepTurns(ss[o], acts[o], n);
    NotYetFailed(ss[j], n, y);
    SameOwner(ss, acts, j, o, y);
    FailedIsListed(ss[o], n, y);
    LaterInList(ss[j].nodes[n].failed, ss[o].nodes[n].failed, x, y);
  }

  lemma LaterInList(early: seq<int>, late: seq<int>, x: int, y: int)
    requires early <= late && x in early && y !in early && y in late
    ensures exists i, j :: 0 <= i < j < |late| && late[i] == x && late[j] == y
  {
    var i :| 0 <= i < |early| && early[i] == x;
    var j :| 0 <= j < |late| && late[j] == y;
    assert late[i] == x;
    assert j >= |early|;
  }

  lemma NotYetFailed(s: State, n: int, y: int)
    requires Core(s) && CanAttempt(s, n) && Top(s, n) == y
    ensures Mine(s.entries, n, y) && y !in s.nodes[n].failed
  {
    hide AllKept, AllLanes, Sealed, SpentTrees, Linked, Compact, DropGone, Top;
    assert Held(s.entries, n, s.nodes[n]);
    TopIsLive(s, n);
  }

  lemma FailedIsListed(s: State, n: int, y: int)
    requires Core(s) && Mine(s.entries, n, y) && IsFailed(s.entries, y)
    ensures 0 <= n < |s.nodes| && y in s.nodes[n].failed
  {
    hide Held, AllHeld, AllLanes, Sealed, SpentTrees;
    assert Kept(s.nodes, s.entries, y);
  }

  lemma {:induction false} SameOwner(ss: seq<State>, acts: seq<Action>, j: nat, k: nat, y: int)
    requires Run(ss, acts) && j <= k < |ss| && 0 <= y < |ss[j].entries|
    ensures y < |ss[k].entries| && ss[k].entries[y].owner == ss[j].entries[y].owner
  {
    hide Next, Valid, Core, Step, Enabled, GoesOn;
    if j < k {
      SameOwner(ss, acts, j, k - 1, y);
      StepOfRun(ss, acts, k - 1);
    }
  }

  ghost predicate Attempted(ss: seq<State>, acts: seq<Action>, p: nat, n: int, x: int)
    requires p < |acts| && |ss| == |acts| + 1
  {
    acts[p].AttemptTop? && acts[p].node == n && CanAttempt(ss[p], n) && Top(ss[p], n) == x
  }

  /** What is past is not attempted again by the same flight. */
  lemma NotAgain(ss: seq<State>, acts: seq<Action>, q: nat, p: nat, n: int, x: int)
    requires Run(ss, acts) && q <= p < |acts| && NotSettled(acts, q, p, n)
    requires 0 <= n < |ss[q].nodes| && ss[q].nodes[n].flight.InFlight? && Past(ss[q], n, x)
    ensures !Attempted(ss, acts, p, n, x)
  {
    hide Next, Valid, Step, Enabled, Progress, Top, CanAttempt, Work, Ordered, Core;
    FlightLasts(ss, acts, q, p, n);
    Onward(ss, acts, q, p);
    StepOfRun(ss, acts, p);
    if Attempted(ss, acts, p, n, x) { TopIsFresh(ss[p], n); }
  }

  lemma TopIsFresh(s: State, n: int)
    requires Core(s) && CanAttempt(s, n)
    ensures !Past(s, n, Top(s, n))
  {
    hide AllKept, AllLanes, Sealed, SpentTrees, Linked, Compact, DropGone, Lists;
    assert Held(s.entries, n, s.nodes[n]);
    TopIsLive(s, n);
  }

  /** A flight that attempts x and then y has x among its failures at the attempt of y, unless x is gone for good. */
  lemma FirstFailsFirst(ss: seq<State>, acts: seq<Action>, i: nat, j: nat, n: int, x: int, y: int)
    requires Run(ss, acts) && i < j < |acts| && NotSettled(acts, i, j, n)
    requires Attempted(ss, acts, i, n, x) && Attempted(ss, acts, j, n, y)
    ensures 0 <= x < |ss[j].entries| && (FailedBefore(ss[j], n, x, y) || ss[j].entries[x].where == Gone)
  {
    hide Next, Valid, Core, Step, Enabled, Progress, Work, Ordered;
    StepOfRun(ss, acts, i);
    StepOfRun(ss, acts, j);
    TopIsOwn(ss[i], n);
    AttemptRemembered(ss, acts, i, j, n);
    SameOwner(ss, acts, i, j, x);
    NoneActive(ss[j], n, x);
    NotWaiting(ss[j], n, x);
    if IsFailed(ss[j].entries, x) { FailedIsListed(ss[j], n, x); }
  }

  lemma TopIsOwn(s: State, n: int)
    requires Core(s) && CanAttempt(s, n)
    ensures Mine(s.entries, n, Top(s, n))
  {
    hide AllKept, AllLanes, Sealed, SpentTrees, Linked, Compact, DropGone, Lists;
    assert Held(s.entries, n, s.nodes[n]);
    TopIsLive(s, n);
  }

  lemma AttemptRemembered(ss: seq<State>, acts: seq<Action>, i: nat, j: nat, n: int)
    requires Run(ss, acts) && i < j < |ss| && i < |acts| && NotSettled(acts, i, j, n)
    requires acts[i].AttemptTop? && acts[i].node == n && CanAttempt(ss[i], n)
    ensures 0 <= n < |ss[j].nodes| && ss[j].nodes[n].flight.InFlight?
    ensures Top(ss[i], n) in ss[j].nodes[n].flight.attempted
  {
    hide Next, Core, Progress, JoinChild, Top, DropGone, Work, Ordered;
    StepOfRun(ss, acts, i);
    JoinProgress(ss[i], n, acts[i].notify);
    FlightLasts(ss, acts, i + 1, j, n);
  }

  lemma NotWaiting(s: State, n: int, x: int)
    requires Core(s) && 0 <= n < |s.nodes| && s.nodes[n].flight.InFlight? && x in s.nodes[n].flight.attempted
    ensures 0 <= x < |s.entries| && s.entries[x].where != Live
  {
    hide AllKept, AllLanes, Sealed, SpentTrees, Linked, Compact, Lists;
    assert Held(s.entries, n, s.nodes[n]);
  }

  /**
   * A retry goes in the order of the attempts: when a flight attempts x before y and both are still failed as the
   * next flight opens, that flight attempts x before y too, unless x is gone by then.
   */
  lemma RetriedInOrder(ss: seq<State>, acts: seq<Action>, i: nat, j: nat, o: nat, q: nat, n: int, x: int, y: int)
    requires Run(ss, acts) && i < j < o < q < |acts| && NotSettled(acts, i, j, n)
    requires Attempted(ss, acts, i, n, x) && Attempted(ss, acts, j, n, y)
    requires NoneOpens(ss, j, o, n) && OpensAt(ss, o, n)
    requires IsFailed(ss[o].entries, x) && IsFailed(ss[o].entries, y)
    requires NotSettled(acts, o + 1, q, n) && Attempted(ss, acts, q, n, y)
    ensures Above(ss[o + 1].nodes[n].live, x, y)
    ensures n < |ss[q].nodes| && Past(ss[q], n, x)
    ensures forall p: nat :: o < p < |acts| && NotSettled(acts, o + 1, p, n) && Attempted(ss, acts, p, n, x) ==> p < q
  {
    hide Next, Valid, Core, Step, Enabled, Progress, Above, FailedBefore, Top, DropGone, Past;
    FirstFailsFirst(ss, acts, i, j, n, x, y);
    Onward(ss, acts, j, o);
    RetriedAbove(ss, acts, j, o, n, x, y);
    LastInFirstOut(ss, acts, o + 1, q, n, x);
    forall p: nat | o < p < |acts| && NotSettled(acts, o + 1, p, n) && Attempted(ss, acts, p, n, x) ensures p < q {
      if q <= p { NotAgain(ss, acts, q, p, n, x); }
    }
  }
}
