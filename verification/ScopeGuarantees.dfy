/** What every run of a tree of cleanup scopes guarantees its callers (scope.ts, reverse order). */
module ScopeGuarantees {
  import opened Sequences
  import opened ScopeState
  import opened ScopeCustody
  import opened ScopeSteps
  import opened ScopeFlights
  import opened ScopeRuns
  import opened ScopeProtocol
  import opened ScopeProgress
  import opened ScopeReleases

  /** What holds from one moment of a run to any later one. */
  ghost predicate Later(s: State, t: State) {
    && |s.nodes| <= |t.nodes| && |s.entries| <= |t.entries| && s.spent <= t.spent
    && (forall e :: 0 <= e < |s.entries| ==> (s.entries[e].where == Gone ==> t.entries[e].where == Gone))
  }

  lemma StepOfRun(ss: seq<State>, acts: seq<Action>, i: nat)
    requires Run(ss, acts) && i < |acts|
    ensures Valid(ss[i]) && Core(ss[i]) && Enabled(ss[i], acts[i]) && ss[i + 1] == Step(ss[i], acts[i])
    ensures Valid(ss[i + 1]) && Progress(ss[i], ss[i + 1], Settled(acts[i]))
  {
    hide Valid, Core, Step, Enabled, Progress, Begin;
    RunValid(ss, acts, i);
    RunValid(ss, acts, i + 1);
    Parts(ss[i]);
    assert Next(ss[i], acts[i], ss[i + 1]);
    StepProgress(ss[i], acts[i]);
  }

  lemma ProgressIsLater(s: State, t: State, n: int)
    requires Progress(s, t, n)
    ensures Later(s, t)
  {
    hide GoesOn;
  }

  lemma {:induction false} Onward(ss: seq<State>, acts: seq<Action>, i: nat, j: nat)
    requires Run(ss, acts) && i <= j < |ss|
    ensures Later(ss[i], ss[j])
  {
    hide Next, Progress, Step, Valid, Enabled, Core;
    if i < j {
      Onward(ss, acts, i, j - 1);
      StepOfRun(ss, acts, j - 1);
      ProgressIsLater(ss[j - 1], ss[j], Settled(acts[j - 1]));
    }
  }

  lemma ReleasedIsGone(ss: seq<State>, acts: seq<Action>, i: nat, e: int)
    requires Run(ss, acts) && i < |acts| && Releases(ss, acts, i, e)
    ensures 0 <= e < |ss[i].entries| && ss[i].entries[e].where == Active
    ensures e < |ss[i + 1].entries| && ss[i + 1].entries[e].where == Gone
  {
    hide Next, Valid, Core, Progress;
    StepOfRun(ss, acts, i);
    AtWork(ss[i], acts[i].node);
  }

  /** No resource is released successfully twice. */
  lemma ReleasedOnce(ss: seq<State>, acts: seq<Action>, i: nat, j: nat, e: int)
    requires Run(ss, acts) && i < |acts| && j < |acts| && Releases(ss, acts, i, e) && Releases(ss, acts, j, e)
    ensures i == j
  {
    hide Next, Releases;
    ReleasedIsGone(ss, acts, i, e);
    ReleasedIsGone(ss, acts, j, e);
    if i < j { Onward(ss, acts, i + 1, j); }
    if j < i { Onward(ss, acts, j + 1, i); }
  }

  /** Nothing is pending in the scope m, and the cleanup of everything it ever acquired has succeeded. */
  ghost predicate AllReleased(ss: seq<State>, acts: seq<Action>, k: nat, m: int)
    requires |ss| == |acts| + 1 && k < |ss|
  {
    && Done(ss[k].nodes, ss[k].entries, m)
    && forall e :: Mine(ss[k].entries, m, e) && ss[k].entries[e].child == -1 ==> ReleasedBefore(ss, acts, k, e)
  }

  /** From step i + 1 on: so it is in every scope of the tree of n, detached scopes included. */
  ghost predicate ReleasedFrom(ss: seq<State>, acts: seq<Action>, i: nat, n: int)
    requires |ss| == |acts| + 1
  {
    forall k, m :: i < k < |ss| && Under(ss[k].nodes, n, m) ==> AllReleased(ss, acts, k, m)
  }

  lemma DoneIsReleased(ss: seq<State>, acts: seq<Action>, k: nat, m: int)
    requires Run(ss, acts) && k < |ss| && Done(ss[k].nodes, ss[k].entries, m)
    ensures AllReleased(ss, acts, k, m)
  {
    hide Next, Releases;
    forall e | Mine(ss[k].entries, m, e) && ss[k].entries[e].child == -1 ensures ReleasedBefore(ss, acts, k, e) {
      GoneWasReleased(ss, acts, k, e);
    }
  }

  lemma SpentForGood(ss: seq<State>, acts: seq<Action>, i: nat, n: int)
    requires Run(ss, acts) && i < |acts| && n in ss[i + 1].spent
    ensures ReleasedFrom(ss, acts, i, n)
  {
    hide Next, Core, Done, Under, AllReleased;
    forall k, m | i < k < |ss| && Under(ss[k].nodes, n, m) ensures AllReleased(ss, acts, k, m) {
      Onward(ss, acts, i + 1, k);
      RunValid(ss, acts, k);
      Parts(ss[k]);
      SpentBelow(ss[k], n, m);
      DoneIsReleased(ss, acts, k, m);
    }
  }

  lemma ClosedAtOnce(s: State, n: int, notify: bool)
    requires Core(s) && 0 <= n < |s.nodes|
    ensures n < |CloseNow(s, n, notify).nodes|
    ensures CloseNow(s, n, notify).nodes[n].flight == NoFlight ==> n in CloseNow(s, n, notify).spent
  {
    hide Core, Seal;
    SealFacts(s, n);
    if Seal(s, n).nodes[n].flight == NoFlight { DetachedIsSpent(Seal(s, n), n); }
  }

  /** A flight that settles without debts reports the truth, for good. */
  lemma CompleteMeansReleased(ss: seq<State>, acts: seq<Action>, i: nat, n: int)
    requires Run(ss, acts) && i < |acts| && acts[i] == SettleFlight(n)
    requires CanSettle(ss[i], n) && NoDebts(End(ss[i], n).nodes, End(ss[i], n).entries, n)
    ensures ReleasedFrom(ss, acts, i, n)
  {
    hide Next, Core, Progress, NoDebts, End, Settle, ReleasedFrom, Valid;
    StepOfRun(ss, acts, i);
    SettleCore(ss[i], n);
    SpentForGood(ss, acts, i, n);
  }

  /** So does a close that answers at once, because there was nothing to open a flight for. */
  lemma CompleteAtOnce(ss: seq<State>, acts: seq<Action>, i: nat, n: int)
    requires Run(ss, acts) && i < |acts| && acts[i].CloseScope? && acts[i].node == n
    requires n < |ss[i + 1].nodes|
    ensures n >= 0 && (ss[i + 1].nodes[n].flight == NoFlight ==> ReleasedFrom(ss, acts, i, n))
  {
    hide Next, Core, Progress, CloseNow, ReleasedFrom, Valid;
    StepOfRun(ss, acts, i);
    ClosedAtOnce(ss[i], n, acts[i].notify);
    if ss[i + 1].nodes[n].flight == NoFlight { SpentForGood(ss, acts, i, n); }
  }

  // ---------- one flight ----------

  ghost predicate NotSettled(acts: seq<Action>, i: nat, j: nat, n: int) {
    forall k :: i <= k < j && k < |acts| ==> acts[k] != SettleFlight(n)
  }

  lemma Going(s: State, t: State, settled: int, n: int)
    requires Progress(s, t, settled) && 0 <= n < |s.nodes| && n != settled
    ensures n < |t.nodes| && GoesOn(s, t, n)
  {
  }

  ghost function Attempts(acts: seq<Action>, i: nat, j: nat, n: int): nat
    requires i <= j <= |acts|
    decreases j
  {
    if i == j then 0
    else Attempts(acts, i, j - 1, n) + if acts[j - 1].AttemptTop? && acts[j - 1].node == n then 1
    else 0
  }

  /** While a flight lasts it stays started, forgets no attempt, and every attempt uses up some of its work. */
  lemma {:induction false} FlightLasts(ss: seq<State>, acts: seq<Action>, i: nat, j: nat, n: int)
    requires Run(ss, acts) && i <= j < |ss| && NotSettled(acts, i, j, n)
    requires 0 <= n < |ss[i].nodes| && ss[i].nodes[n].flight.InFlight?
    ensures n < |ss[j].nodes| && GoesOn(ss[i], ss[j], n) && ss[j].nodes[n].flight.InFlight?
    ensures Attempts(acts, i, j, n) <= Work(ss[i], n) - Work(ss[j], n)
  {
    hide Next, Progress, Step, Valid, Enabled, Core, Work, Ordered;
    if i == j {
      OrderedSame(ss[i], ss[i], n);
    } else {
      FlightLasts(ss, acts, i, j - 1, n);
      StepOfRun(ss, acts, j - 1);
      Going(ss[j - 1], ss[j], Settled(acts[j - 1]), n);
      ProgressIsLater(ss[j - 1], ss[j], Settled(acts[j - 1]));
      Onward(ss, acts, i, j - 1);
      OrderedJoin(ss[i], ss[j - 1], ss[j], n);
      if acts[j - 1].AttemptTop? && acts[j - 1].node == n { AttemptUses(ss[j - 1], acts[j - 1]); }
    }
  }

  lemma AttemptUses(s: State, a: Action)
    requires Core(s) && Enabled(s, a) && a.AttemptTop?
    ensures a.node < |Step(s, a).nodes| && Work(Step(s, a), a.node) < Work(s, a.node)
  {
    hide Core, JoinChild, Work;
    JoinProgress(s, a.node, a.notify);
  }

  /** A flight makes at most as many attempts as it had pending setups, twice, and live registrations. */
  lemma AttemptsAreBounded(ss: seq<State>, acts: seq<Action>, i: nat, j: nat, n: int)
    requires Run(ss, acts) && i <= j < |ss| && NotSettled(acts, i, j, n)
    requires 0 <= n < |ss[i].nodes| && ss[i].nodes[n].flight.InFlight?
    ensures Attempts(acts, i, j, n) <= 2 * |ss[i].nodes[n].pending| + |Compact(ss[i].entries, ss[i].nodes[n].live)|
  {
    hide Next, Compact, GoesOn;
    FlightLasts(ss, acts, i, j, n);
  }

  /** Two attempts of one registration by a scope belong to different flights. */
  lemma AttemptedOncePerFlight(ss: seq<State>, acts: seq<Action>, i: nat, j: nat, n: int)
    requires Run(ss, acts)
    requires i < j < |acts|
    requires acts[i].AttemptTop?
    requires acts[j].AttemptTop?
    requires acts[i].node == acts[j].node == n
    requires CanAttempt(ss[i], n) && CanAttempt(ss[j], n) && Top(ss[i], n) == Top(ss[j], n)
    ensures !NotSettled(acts, i, j, n)
  {
    hide Next, Core, Progress, JoinChild, Top, DropGone, Work;
    StepOfRun(ss, acts, i);
    StepOfRun(ss, acts, j);
    JoinProgress(ss[i], n, acts[i].notify);
    JoinProgress(ss[j], n, acts[j].notify);
    if NotSettled(acts, i, j, n) {
      FlightLasts(ss, acts, i + 1, j, n);
    }
  }

  /**
   * Releases go from the top of the list down: whatever stood above y at any moment of a flight is gone or has
   * been attempted when the flight attempts y.
   */
  lemma LastInFirstOut(ss: seq<State>, acts: seq<Action>, i: nat, j: nat, n: int, x: int)
    requires Run(ss, acts) && i <= j < |acts| && NotSettled(acts, i, j, n)
    requires 0 <= n < |ss[i].nodes| && ss[i].nodes[n].flight.InFlight?
    requires acts[j].AttemptTop?
    requires acts[j].node == n
    requires CanAttempt(ss[j], n)
    requires Above(ss[i].nodes[n].live, x, Top(ss[j], n))
    ensures n < |ss[j].nodes| && Past(ss[j], n, x)
  {
    hide Next, Core, Progress, DropGone, Work, Valid, Step, Enabled, Above;
    StepOfRun(ss, acts, i);
    StepOfRun(ss, acts, j);
    FlightLasts(ss, acts, i, j, n);
    ListIsHeld(ss[i], n);
    ListIsHeld(ss[j], n);
    TopIsListed(ss[j], n);
    AboveListed(ss[i].nodes[n].live, x, Top(ss[j], n));
    assert Ordered(ss[i], ss[j], n);
    if Above(ss[j].nodes[n].live, x, Top(ss[j], n)) {
      AboveTop(ss[j].entries, ss[j].nodes[n].live, x, Top(ss[j], n));
    }
  }

  lemma ListIsHeld(s: State, n: int)
    requires Core(s) && 0 <= n < |s.nodes|
    ensures Distinct(s.nodes[n].live) && forall e :: e in s.nodes[n].live ==> 0 <= e < |s.entries|
  {
    hide Lists;
    assert Held(s.entries, n, s.nodes[n]);
    HeldDistinct(s.entries, n, s.nodes[n]);
  }

  lemma AboveListed(live: seq<int>, x: int, y: int)
    requires Above(live, x, y)
    ensures y in live
  {
  }

  lemma TopIsListed(s: State, n: int)
    requires CanAttempt(s, n)
    ensures Top(s, n) in s.nodes[n].live
  {
    var d := DropGone(s.entries, s.nodes[n].live);
    assert d <= s.nodes[n].live;
    assert s.nodes[n].live[|d| - 1] == d[|d| - 1];
  }

  /** The node whose flight a step starts. */
  ghost predicate StartsFlight(ss: seq<State>, acts: seq<Action>, i: nat, n: int)
    requires i < |acts| && |ss| == |acts| + 1
  {
    acts[i].StartFlight? && CanStart(ss[i]) && ss[i].queue[ss[i].cursor] == n
  }

  /**
   * A flight starts once: a second start of the same scope is of another flight. And it starts quietly, with
   * everything below sealed.
   */
  lemma StartedOncePerFlight(ss: seq<State>, acts: seq<Action>, i: nat, j: nat, n: int)
    requires Run(ss, acts) && i < j < |acts| && StartsFlight(ss, acts, i, n) && StartsFlight(ss, acts, j, n)
    ensures !NotSettled(acts, i, j, n)
    ensures !Notifying(ss[i]) && forall m :: Under(ss[i].nodes, n, m) ==> ss[i].nodes[m].requested
  {
    hide Next, Core, Progress, Valid, Starts, Work;
    StepOfRun(ss, acts, i);
    StepOfRun(ss, acts, j);
    StartsQuietly(ss[i]);
    StartsQuietly(ss[j]);
    if NotSettled(acts, i, j, n) {
      FlightLasts(ss, acts, i + 1, j, n);
    }
  }
}
