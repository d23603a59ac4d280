/**
 * Every run of a tree of cleanup scopes, under any interleaving of callers, setups, cleanups and listeners
 * (scope.ts, reverse order).
 */
module ScopeProtocol {
  import opened Sequences
  import opened ScopeState
  import opened ScopeCustody
  import opened ScopeSteps
  import opened ScopeFlights
  import opened ScopeRuns

  datatype Action =
    | AnnounceSetup(node: int, setup: int)
    | FailSetup(node: int, setup: int)
    | FinishSetup(node: int, setup: int)
    | UseResource(node: int)
    | MakeChild(node: int)
    | CloseScope(node: int, notify: bool)
    | AbortSetups
    | LeaveListeners
    | LeaveClose
    | StartFlight
    | LeaveDrain
    | AttemptTop(node: int, notify: bool)
    | GetOutcome(node: int, failed: bool)
    | SettleFlight(node: int)

  ghost predicate Enabled(s: State, a: Action) {
    match a
    case AnnounceSetup(n, p) => 0 <= n < |s.nodes| && !s.nodes[n].requested
    case FailSetup(n, p) => 0 <= n < |s.nodes| && p in s.nodes[n].pending
    case FinishSetup(n, p) => 0 <= n < |s.nodes| && p in s.nodes[n].pending
    case UseResource(n) => 0 <= n < |s.nodes| && !s.nodes[n].requested
    case MakeChild(n) => 0 <= n < |s.nodes| && !s.nodes[n].requested
    case CloseScope(n, _) => 0 <= n < |s.nodes|
    case AbortSetups => true
    case LeaveListeners => s.stack != [] && s.stack[|s.stack| - 1] == Notify
    case LeaveClose => CanReturn(s)
    case StartFlight => CanStart(s)
    case LeaveDrain => CanEndDrain(s)
    case AttemptTop(n, _) => CanAttempt(s, n)
    case GetOutcome(n, failed) => CanResolve(s, n, failed)
    case SettleFlight(n) => CanSettle(s, n)
  }

  ghost function Registering(s: State, a: Action): State
    requires Enabled(s, a)
  {
    match a
    case AnnounceSetup(n, p) => Pend(s, n, s.nodes[n].pending + {p})
    case FailSetup(n, p) => Pend(s, n, s.nodes[n].pending - {p})
    case FinishSetup(n, p) => Acquire(s, n, {p})
    case UseResource(n) => Acquire(s, n, {})
    case MakeChild(n) => Adopt(s, n)
    case _ => s
  }

  ghost function Returning(s: State, a: Action): State
    requires Enabled(s, a)
  {
    match a
    case AbortSetups => Push(s, Notify)
    case LeaveListeners => NotifyReturns(s)
    case LeaveClose => CloseReturns(s)
    case StartFlight => StartNext(s)
    case LeaveDrain => DrainEnds(s)
    case _ => s
  }

  ghost function Step(s: State, a: Action): State
    requires Core(s) && Enabled(s, a)
  {
    match a
    case CloseScope(n, notify) => CloseNow(s, n, notify)
    case AttemptTop(n, notify) => JoinChild(s, n, notify)
    case GetOutcome(n, failed) => Resolve(s, n, failed)
    case SettleFlight(n) => Settle(s, n)
    case AbortSetups => Returning(s, a)
    case LeaveListeners => Returning(s, a)
    case LeaveClose => Returning(s, a)
    case StartFlight => Returning(s, a)
    case LeaveDrain => Returning(s, a)
    case _ => Registering(s, a)
  }

  // ---------- each step keeps the invariant ----------

  lemma SameCalls(s: State, t: State)
    requires Core(s) && t.nodes == s.nodes && t.entries == s.entries && t.spent == s.spent
    ensures Core(t)
  {
  }

  /** Steps that touch the nodes but no flight that is opened or queued. */
  lemma QuietFlight(s: State, t: State, n: int)
    requires Starts(s) && OthersFly(s, t, n)
    requires InPhase(t.nodes, n, Opened) <==> InPhase(s.nodes, n, Opened)
    requires InPhase(t.nodes, n, Queued) <==> InPhase(s.nodes, n, Queued)
    ensures Starts(t)
  {
    hide Placed;
    assert SamePhases(s, t);
    StartsQuiet(s, t);
  }

  lemma RegisterValid(s: State, a: Action)
    requires Valid(s) && Enabled(s, a) && (a.AnnounceSetup? || a.FailSetup? || a.FinishSetup? || a.UseResource?)
    ensures Valid(Step(s, a))
  {
    hide Core, Starts;
    var n := a.node;
    NotSpent(s, n);
    match a
    case AnnounceSetup(_, p) => PendCore(s, n, s.nodes[n].pending + {p}); QuietFlight(s, Step(s, a), n);
    case FailSetup(_, p) => PendCore(s, n, s.nodes[n].pending - {p}); QuietFlight(s, Step(s, a), n);
    case FinishSetup(_, p) => AcquireCore(s, n, {p}); QuietFlight(s, Step(s, a), n);
    case UseResource(_) => AcquireCore(s, n, {}); QuietFlight(s, Step(s, a), n);
  }

  lemma ChildValid(s: State, n: int)
    requires Valid(s) && Enabled(s, MakeChild(n))
    ensures Valid(Step(s, MakeChild(n)))
  {
    hide Core, Placed;
    AdoptCore(s, n);
    var t := Adopt(s, n);
    assert SamePhases(s, t);
    StartsQuiet(s, t);
  }

  lemma OutcomeValid(s: State, n: int, failed: bool)
    requires Valid(s) && Enabled(s, GetOutcome(n, failed))
    ensures Valid(Step(s, GetOutcome(n, failed)))
  {
    hide Core, Starts;
    ResolveCore(s, n, failed);
    QuietFlight(s, Resolve(s, n, failed), n);
  }

  /** A call of close or join on n, after sealing. */
  lemma CallStarts(s: State, u: State, n: int, notify: bool)
    requires Starts(s) && 0 <= n < |s.nodes| && OthersFly(s, u, n)
    requires s.nodes[n].flight.InFlight? ==> u.nodes[n].flight == s.nodes[n].flight
    requires s.nodes[n].flight == NoFlight && u.nodes[n].flight.InFlight? ==> u.nodes[n].flight == InFlight(Opened, {})
    ensures Starts(Call(s, u, n, notify))
  {
    hide Placed, Starts;
    var started := s.nodes[n].flight == NoFlight && u.nodes[n].flight.InFlight?;
    var t := u.(stack := u.stack + [Closing(n, started)]);
    StartsPush(s, t, Closing(n, started));
    if notify {
      StartsPush(t, t.(stack := t.stack + [Notify]), Notify);
      assert Call(s, u, n, true) == t.(stack := t.stack + [Notify]);
    } else {
      assert Call(s, u, n, false) == t;
    }
  }

  lemma CloseValid(s: State, n: int, notify: bool)
    requires Valid(s) && Enabled(s, CloseScope(n, notify))
    ensures Valid(Step(s, CloseScope(n, notify)))
  {
    hide Core, Starts, Seal;
    SealFacts(s, n);
    var u := Seal(s, n);
    CallStarts(s, u, n, notify);
    SameCalls(u, Call(s, u, n, notify));
  }

  lemma CallsValid(s: State, a: Action)
    requires Valid(s) && Enabled(s, a) && (a.AbortSetups? || a.LeaveListeners? || a.LeaveDrain?)
    ensures Valid(Step(s, a))
  {
    hide Core, Placed, Starts;
    match a
    case AbortSetups => StartsPush(s, Push(s, Notify), Notify); SameCalls(s, Step(s, a));
    case LeaveListeners => NotifyReturnsStarts(s); SameCalls(s, Step(s, a));
    case LeaveDrain => DrainEndsStarts(s); SameCalls(s, Step(s, a));
  }

  lemma ReachLane(s: State, n: int, phase: Phase)
    requires 0 <= n < |s.nodes| && (phase == Queued || phase == Running) && s.nodes[n].flight.InFlight?
    ensures var f := InFlight(phase, s.nodes[n].flight.attempted);
      Lane(s.nodes[n := s.nodes[n].(flight := f)], s.entries, s.nodes[n].(flight := f))
  {
  }

  lemma ReachCore(s: State, n: int, phase: Phase)
    requires Core(s)
    requires phase == Queued || phase == Running
    requires InPhase(s.nodes, n, Opened) || InPhase(s.nodes, n, Queued)
    ensures Core(Reach(s, n, phase))
  {
    hide Core, Lane;
    FlyingIsRequested(s, n);
    ReachLane(s, n, phase);
    FlyCore(s, n, InFlight(phase, s.nodes[n].flight.attempted));
  }

  lemma LeaveCloseValid(s: State)
    requires Valid(s) && Enabled(s, LeaveClose)
    ensures Valid(Step(s, LeaveClose))
  {
    hide Core, StackPlaced, QueuePlaced, Draining, Notifying, Reach;
    CloseReturnsStarts(s);
    var f, p := s.stack[|s.stack| - 1], Pop(s);
    SameCalls(s, p);
    if f.started {
      OpenedTop(s);
      ReachCore(p, f.node, Queued);
      SameCalls(Reach(p, f.node, Queued), Step(s, LeaveClose));
    }
  }

  lemma StartValid(s: State)
    requires Valid(s) && Enabled(s, StartFlight)
    ensures Valid(Step(s, StartFlight))
  {
    hide Core, StackPlaced, QueuePlaced, Draining, Notifying, Reach;
    StartNextStarts(s);
    var n := s.queue[s.cursor];
    QueuedNext(s);
    ReachCore(s, n, Running);
    SameCalls(Reach(s, n, Running), StartNext(s));
  }

  lemma AttemptValid(s: State, n: int, notify: bool)
    requires Valid(s) && Enabled(s, AttemptTop(n, notify))
    ensures Valid(Step(s, AttemptTop(n, notify)))
  {
    hide Core, Starts, Placed, Seal, Top, DropGone;
    AttemptCore(s, n);
    AttemptJoins(s, n);
    var t, e := Attempt(s, n), Top(s, n);
    QuietFlight(s, t, n);
    if t.entries[e].child != -1 {
      var c := t.entries[e].child;
      SealFacts(t, c);
      var u := Seal(t, c);
      TellJoined(t, u, n, c, e);
      var v := Tell(u, n, if u.nodes[c].flight.InFlight? then None else Some(true));
      QuietFlight(t, t.(nodes := t.nodes[n := v.nodes[n]]), n);
      CallStarts(t.(nodes := t.nodes[n := v.nodes[n]]), v, c, notify);
      SameCalls(v, Call(t, v, c, notify));
    }
  }

  lemma TellJoined(t: State, u: State, n: int, c: int, e: int)
    requires Core(u)
    requires OthersFly(t, u, c)
    requires 0 <= n < c < |t.nodes|
    requires 0 <= e < |t.entries|
    requires t.entries[e].child == c
    requires t.nodes[c].entry == e
    requires t.nodes[n].flight.InFlight? && t.nodes[n].flight.phase == Joining(e, Some(false))
    requires u.nodes[c].flight == NoFlight ==> u.nodes[c].detached
    ensures Core(Tell(u, n, if u.nodes[c].flight.InFlight? then None else Some(true)))
  {
    hide Core;
    GoneDetached(u, c);
    TellCore(u, n, if u.nodes[c].flight.InFlight? then None else Some(true));
  }

  lemma SettleFlies(s: State, n: int)
    requires Core(s) && CanSettle(s, n)
    ensures var t := Settle(s, n);
            && |t.nodes| == |s.nodes| && t.stack == s.stack && t.queue == s.queue && t.cursor == s.cursor
            && SamePhases(s, t)
  {
    hide Core, DropGone, NoDebts, Tell, Detach, End;
    EndCore(s, n);
    EndFacts(s, n);
    var t := End(s, n);
    if NoDebts(t.nodes, t.entries, n) {
      EndLinked(t);
      DetachFlights(t, n);
      if Waiting(s, n) { HearPhases(Detach(t, n), s.nodes[n].up); }
    }
  }

  lemma EndLinked(s: State)
    requires Core(s)
    ensures Linked(s.nodes, s.entries)
  {
  }

  lemma HearPhases(s: State, p: int)
    ensures var t := Hear(s, p);
      |t.nodes| == |s.nodes| && t.stack == s.stack && t.queue == s.queue && t.cursor == s.cursor && SamePhases(s, t)
  {
  }

  lemma SettleValid(s: State, n: int)
    requires Valid(s) && Enabled(s, SettleFlight(n))
    ensures Valid(Step(s, SettleFlight(n)))
  {
    hide Core, Placed, SamePhases, Settle, CanSettle;
    SettleCore(s, n);
    SettleFlies(s, n);
    StartsQuiet(s, Settle(s, n));
  }

  /** Every step keeps the invariant. */
  lemma StepValid(s: State, a: Action)
    requires Valid(s) && Enabled(s, a)
    ensures Valid(Step(s, a))
  {
    hide Valid, Core, Starts, Step, Enabled;
    Parts(s);
    match a
    case AnnounceSetup(_, _) => RegisterValid(s, a);
    case FailSetup(_, _) => RegisterValid(s, a);
    case FinishSetup(_, _) => RegisterValid(s, a);
    case UseResource(_) => RegisterValid(s, a);
    case MakeChild(n) => ChildValid(s, n);
    case CloseScope(n, notify) => CloseValid(s, n, notify);
    case AbortSetups => CallsValid(s, a);
    case LeaveListeners => CallsValid(s, a);
    case LeaveDrain => CallsValid(s, a);
    case LeaveClose => LeaveCloseValid(s);
    case StartFlight => StartValid(s);
    case AttemptTop(n, notify) => AttemptValid(s, n, notify);
    case GetOutcome(n, failed) => OutcomeValid(s, n, failed);
    case SettleFlight(n) => SettleValid(s, n);
  }

  lemma Parts(s: State)
    requires Valid(s)
    ensures Core(s) && Starts(s)
  {
  }

  ghost predicate Next(s: State, a: Action, t: State) {
    Enabled(s, a) && (Core(s) ==> t == Step(s, a))
  }

  lemma NextIs(s: State, a: Action, t: State)
    requires Next(s, a, t) && Core(s)
    ensures Enabled(s, a) && t == Step(s, a)
  {
  }

  ghost predicate Run(ss: seq<State>, acts: seq<Action>) {
    && |ss| == |acts| + 1 && ss[0] == Begin()
    && forall i :: 0 <= i < |acts| ==> Next(ss[i], acts[i], ss[i + 1])
  }

  lemma BeginValid()
    ensures Valid(Begin())
  {
    EmptyLists([], 0);
  }

  lemma {:induction false} RunValid(ss: seq<State>, acts: seq<Action>, i: nat)
    requires Run(ss, acts) && i < |ss|
    ensures Valid(ss[i])
  {
    hide Valid, Core, Step, Enabled, Begin;
    if i == 0 {
      BeginValid();
    } else {
      RunValid(ss, acts, i - 1);
      Parts(ss[i - 1]);
      assert Next(ss[i - 1], acts[i - 1], ss[i]);
      StepValid(ss[i - 1], acts[i - 1]);
    }
  }

  // ---------- custody ----------

  /**
   * In every reachable state a registration that is not released is in exactly the list of its scope that its
   * state names.
   */
  lemma InOnePlace(ss: seq<State>, acts: seq<Action>, i: nat, e: int)
    requires Run(ss, acts) && i < |ss| && 0 <= e < |ss[i].entries|
    ensures var s := ss[i]; 0 <= s.entries[e].owner < |s.nodes|
    ensures var s := ss[i];
            var node, w := s.nodes[s.entries[e].owner], s.entries[e].where;
            && (w == Live ==> e in node.live && e !in node.active && e !in node.failed)
            && (w == Active ==> e in node.active && e !in node.live && e !in node.failed)
            && (w == Failed ==> e in node.failed && e !in node.live && e !in node.active)
  {
    RunValid(ss, acts, i);
    hide Run, Starts, AllLanes, Sealed, SpentTrees, Compact;
    var s := ss[i];
    assert Kept(s.nodes, s.entries, e) && Held(s.entries, s.entries[e].owner, s.nodes[s.entries[e].owner]);
  }

  /** With no call in progress, every flight has been started. */
  lemma NothingUnstarted(s: State, n: int)
    requires Valid(s) && s.stack == []
    ensures !InPhase(s.nodes, n, Opened) && !InPhase(s.nodes, n, Queued)
  {
    hide Core;
    assert !Draining(s) && !Notifying(s);
    assert s.queue[s.cursor..] == [];
  }
}
