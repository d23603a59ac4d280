/** A resource is gone only by a release that succeeded (scope.ts, reverse order). */
module ScopeReleases {
  import opened Sequences
  import opened ScopeState
  import opened ScopeCustody
  import opened ScopeSteps
  import opened ScopeFlights
  import opened ScopeRuns
  import opened ScopeProtocol

  /** From s to t no resource goes, except `released`. */
  ghost predicate OnlyGoes(s: State, t: State, released: int) {
    && |s.entries| <= |t.entries|
    && (forall e :: 0 <= e < |s.entries| ==>
          && t.entries[e].child == s.entries[e].child
          && (e != released && s.entries[e].child == -1 && s.entries[e].where != Gone ==> t.entries[e].where != Gone))
    && (forall e :: |s.entries| <= e < |t.entries| && t.entries[e].child == -1 ==> t.entries[e].where != Gone)
  }

  lemma OnlyJoin(s: State, t: State, u: State)
    requires OnlyGoes(s, t, -1) && OnlyGoes(t, u, -1)
    ensures OnlyGoes(s, u, -1)
  {
  }

  lemma SameEntries(s: State, t: State)
    requires t.entries == s.entries
    ensures OnlyGoes(s, t, -1)
  {
  }

  lemma ReopenOnly(s: State, n: int)
    requires 0 <= n < |s.nodes|
    ensures OnlyGoes(s, Reopen(s, n), -1)
  {
  }

  /** Detaching forgets the registration of a child scope, not a resource. */
  lemma DetachOnly(s: State, n: int)
    requires Linked(s.nodes, s.entries) && 0 <= n < |s.nodes|
    ensures OnlyGoes(s, Detach(s, n), -1)
  {
    hide Linked, Compact, Tree;
    if !s.nodes[n].detached && n > 0 { LinkedChild(s, n); }
  }

  lemma OpenOnly(s: State, n: int)
    requires Core(s) && 0 <= n < |s.nodes| && s.nodes[n].flight == NoFlight && s.nodes[n].requested
    ensures Linked(s.nodes, s.entries)
    ensures Linked(Reopen(s, n).nodes, Reopen(s, n).entries)
    ensures OnlyGoes(s, Open(s, n), -1)
  {
    hide Core, Linked, Reopen, Detach, OnlyGoes;
    OpenCore(s, n);
    ReopenOnly(s, n);
    ReopenFlies(s, n);
    var t := Reopen(s, n);
    DetachOnly(t, n);
    SameEntries(t, Fly(t, n, InFlight(Opened, {})));
    OnlyJoin(s, t, Open(s, n));
  }

  lemma SealOnly(s: State, n: int)
    requires Core(s) && 0 <= n < |s.nodes|
    ensures OnlyGoes(s, Seal(s, n), -1)
  {
    hide Core, Linked, Open, OnlyGoes, Visited, Under;
    RequestCore(s, n);
    RequestFlies(s, n);
    var t := Request(s, n);
    SameEntries(s, t);
    if t.nodes[n].flight == NoFlight {
      UnderSelf(s, n);
      OpenOnly(t, n);
      OnlyJoin(s, t, Open(t, n));
    }
  }

  lemma CloseOnly(s: State, n: int, notify: bool)
    requires Core(s) && 0 <= n < |s.nodes|
    ensures OnlyGoes(s, CloseNow(s, n, notify), -1)
  {
    hide Core, Seal, OnlyGoes;
    SealFacts(s, n);
    SealOnly(s, n);
    SameEntries(Seal(s, n), CloseNow(s, n, notify));
    OnlyJoin(s, Seal(s, n), CloseNow(s, n, notify));
  }

  lemma AttemptOnly(s: State, n: int)
    requires CanAttempt(s, n) && 0 <= Top(s, n) < |s.entries|
    ensures OnlyGoes(s, Attempt(s, n), -1)
  {
    hide DropGone, Top;
  }

  lemma JoinOnly(s: State, n: int, notify: bool)
    requires Core(s) && CanAttempt(s, n)
    ensures OnlyGoes(s, JoinChild(s, n, notify), -1)
  {
    hide Core, Seal, Top, DropGone, OnlyGoes;
    TopIsHeld(s, n);
    AttemptCore(s, n);
    AttemptJoins(s, n);
    AttemptOnly(s, n);
    var t, e := Attempt(s, n), Top(s, n);
    if t.entries[e].child != -1 {
      var c := t.entries[e].child;
      SealFacts(t, c);
      SealOnly(t, c);
      SameEntries(Seal(t, c), JoinChild(s, n, notify));
      OnlyJoin(t, Seal(t, c), JoinChild(s, n, notify));
      OnlyJoin(s, t, JoinChild(s, n, notify));
    }
  }

  lemma SettleOnly(s: State, n: int)
    requires Core(s) && CanSettle(s, n)
    ensures OnlyGoes(s, Settle(s, n), -1)
  {
    hide Core, Linked, NoDebts, Detach, End, OnlyGoes, DropGone, Waiting;
    EndCore(s, n);
    EndFacts(s, n);
    var t := End(s, n);
    SameEntries(s, t);
    if NoDebts(t.nodes, t.entries, n) {
      DetachOnly(t, n);
      OnlyJoin(s, t, Detach(t, n));
      SameEntries(Detach(t, n), Hear(Detach(t, n), s.nodes[n].up));
      OnlyJoin(s, Detach(t, n), Hear(Detach(t, n), s.nodes[n].up));
    }
  }

  /** What a step releases: the resource whose cleanup has succeeded. */
  ghost function ReleasedIn(s: State, a: Action): int {
    if a.GetOutcome? && !a.failed && 0 <= a.node < |s.nodes| && s.nodes[a.node].flight.InFlight?
      && s.nodes[a.node].flight.phase.Releasing?
    then s.nodes[a.node].flight.phase.entry
    else -1
  }

  lemma ResolveOnly(s: State, n: int, failed: bool)
    requires Core(s) && CanResolve(s, n, failed)
    ensures OnlyGoes(s, Resolve(s, n, failed), ReleasedIn(s, GetOutcome(n, failed)))
  {
    hide Compact, Lists, Sealed, SpentTrees, AllHeld, AllKept;
    assert Lane(s.nodes, s.entries, s.nodes[n]);
    hide Core, AllLanes;
  }

  lemma CallsOnly(s: State, a: Action)
    requires Enabled(s, a) && (a.AbortSetups? || a.LeaveListeners? || a.LeaveClose? || a.StartFlight? || a.LeaveDrain?)
    ensures OnlyGoes(s, Returning(s, a), -1)
  {
    SameEntries(s, Returning(s, a));
  }

  lemma RegistersOnly(s: State, a: Action)
    requires Enabled(s, a) && (a.AnnounceSetup? || a.FailSetup? || a.FinishSetup? || a.UseResource? || a.MakeChild?)
    ensures OnlyGoes(s, Registering(s, a), -1)
  {
  }

  lemma StepOnly(s: State, a: Action)
    requires Core(s) && Enabled(s, a)
    ensures OnlyGoes(s, Step(s, a), ReleasedIn(s, a))
  {
    hide Core, OnlyGoes, CloseNow, JoinChild, Resolve, Settle, CanAttempt, CanResolve, CanSettle, Registering,
         Returning;
    match a
    case CloseScope(n, notify) => CloseOnly(s, n, notify);
    case AttemptTop(n, notify) => JoinOnly(s, n, notify);
    case GetOutcome(n, failed) => ResolveOnly(s, n, failed);
    case SettleFlight(n) => SettleOnly(s, n);
    case AbortSetups => CallsOnly(s, a);
    case LeaveListeners => CallsOnly(s, a);
    case LeaveClose => CallsOnly(s, a);
    case StartFlight => CallsOnly(s, a);
    case LeaveDrain => CallsOnly(s, a);
    case AnnounceSetup(_, _) => RegistersOnly(s, a);
    case FailSetup(_, _) => RegistersOnly(s, a);
    case FinishSetup(_, _) => RegistersOnly(s, a);
    case UseResource(_) => RegistersOnly(s, a);
    case MakeChild(_) => RegistersOnly(s, a);
  }

  /** The release of e succeeds at step i. */
  ghost predicate Releases(ss: seq<State>, acts: seq<Action>, i: nat, e: int)
    requires i < |acts| && |ss| == |acts| + 1
  {
    acts[i].GetOutcome? && !acts[i].failed && InPhase(ss[i].nodes, acts[i].node, Releasing(e))
  }

  ghost predicate ReleasedBefore(ss: seq<State>, acts: seq<Action>, k: nat, e: int)
    requires |ss| == |acts| + 1
  {
    exists i: nat :: i < k && i < |acts| && Releases(ss, acts, i, e)
  }

  /** Over every run: a resource that is gone was released, by a cleanup that succeeded. */
  lemma {:induction false} GoneWasReleased(ss: seq<State>, acts: seq<Action>, k: nat, e: int)
    requires Run(ss, acts) && k < |ss| && 0 <= e < |ss[k].entries|
    requires ss[k].entries[e].child == -1 && ss[k].entries[e].where == Gone
    ensures ReleasedBefore(ss, acts, k, e)
  {
    hide Next, Step, Enabled, Core, Valid, InPhase;
    if k == 0 {
      NoneAtFirst();
    } else {
      var s, a := ss[k - 1], acts[k - 1];
      RunValid(ss, acts, k - 1);
      Parts(s);
      assert Next(s, a, ss[k]);
      NextIs(s, a, ss[k]);
      StepOnly(s, a);
      if e < |s.entries| && s.entries[e].where == Gone {
        GoneWasReleased(ss, acts, k - 1, e);
      } else {
        ReleasedNow(s, a, e);
        assert Releases(ss, acts, k - 1, e);
      }
    }
  }

  lemma NoneAtFirst()
    ensures Begin().entries == []
  {
  }

  lemma ReleasedNow(s: State, a: Action, e: int)
    requires e >= 0 && ReleasedIn(s, a) == e
    ensures a.GetOutcome? && !a.failed && InPhase(s.nodes, a.node, Releasing(e))
  {
  }
}
