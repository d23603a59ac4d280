/** No flight is ever stuck: something can go on, or a setup is still to end (scope.ts, reverse order). */
module ScopeLiveness {
  import opened Sequences
  import opened ScopeState
  import opened ScopeCustody
  import opened ScopeSteps
  import opened ScopeFlights
  import opened ScopeRuns
  import opened ScopeProtocol

  /** The flight of m can make a step by itself: attempt, take an outcome, or settle. */
  ghost predicate CanGoOn(s: State, m: int) {
    || Enabled(s, AttemptTop(m, false))
    || Enabled(s, GetOutcome(m, true)) || Enabled(s, GetOutcome(m, false))
    || Enabled(s, SettleFlight(m))
  }

  /** What a flight waits for when it cannot go on: a setup that was announced, or the flight of a child it joined. */
  lemma WaitsFor(s: State, n: int)
    requires Valid(s) && s.stack == [] && 0 <= n < |s.nodes| && s.nodes[n].flight.InFlight?
    ensures CanGoOn(s, n) || s.nodes[n].pending != {} || exists c :: n < c < |s.nodes| && ChildInFlight(s, n, c)
  {
    hide Held, AllHeld, AllKept, Sealed, SpentTrees, DropGone, Starts;
    NothingUnstarted(s, n);
    assert Lane(s.nodes, s.entries, s.nodes[n]);
    match s.nodes[n].flight.phase
    case Joining(e, None) =>
      AtWork(s, n);
      LinkedChildOf(s, n, e);
      assert ChildInFlight(s, n, s.entries[e].child);
    case _ =>
  }

  ghost predicate ChildInFlight(s: State, n: int, c: int)
    requires 0 <= c < |s.nodes|
  {
    s.nodes[c].up == n && s.nodes[c].flight.InFlight?
  }

  lemma LinkedChildOf(s: State, n: int, e: int)
    requires Core(s) && 0 <= n < |s.nodes| && Mine(s.entries, n, e) && 0 <= s.entries[e].child < |s.nodes|
    ensures n < s.entries[e].child && s.nodes[s.entries[e].child].up == n
  {
    hide AllHeld, AllKept, AllLanes, Sealed, SpentTrees;
    var c := s.entries[e].child;
    assert 0 < c && s.nodes[c].entry == e && Mine(s.entries, s.nodes[c].up, s.nodes[c].entry);
  }

  /**
   * With no call in progress, every flight has, in the tree of its scope, one that can go on or that waits for a
   * setup to end.
   */
  lemma {:induction false} NeverStuck(s: State, n: int)
    requires Valid(s) && s.stack == [] && 0 <= n < |s.nodes| && s.nodes[n].flight.InFlight?
    ensures exists m ::
      Under(s.nodes, n, m) && s.nodes[m].flight.InFlight? && (CanGoOn(s, m) || s.nodes[m].pending != {})
    decreases |s.nodes| - n
  {
    hide Valid, CanGoOn;
    WaitsFor(s, n);
    UnderSelf(s, n);
    if !CanGoOn(s, n) && s.nodes[n].pending == {} {
      var c :| n < c < |s.nodes| && ChildInFlight(s, n, c);
      NeverStuck(s, c);
      var m :|
        Under(s.nodes, c, m) && s.nodes[m].flight.InFlight? && (CanGoOn(s, m) || s.nodes[m].pending != {});
      UnderChild(s.nodes, n, c, m);
    }
  }

  lemma {:induction false} UnderChild(ns: seq<Node>, n: int, c: int, m: int)
    requires 0 <= n < c < |ns| && ns[c].up == n && Under(ns, c, m)
    ensures Under(ns, n, m)
    decreases m
  {
    if m != c { UnderChild(ns, n, c, ns[m].up); } else { UnderItself(ns, n); }
  }

  lemma UnderItself(ns: seq<Node>, n: int)
    requires 0 <= n < |ns|
    ensures Under(ns, n, n)
  {
  }

  /** So it is in every state of every run. */
  lemma FlightsGoOn(ss: seq<State>, acts: seq<Action>, i: nat, n: int)
    requires Run(ss, acts) && i < |ss| && ss[i].stack == []
    requires 0 <= n < |ss[i].nodes| && ss[i].nodes[n].flight.InFlight?
    ensures exists m ::
      Under(ss[i].nodes, n, m) && ss[i].nodes[m].flight.InFlight?
        && (CanGoOn(ss[i], m) || ss[i].nodes[m].pending != {})
  {
    hide Next, Valid, CanGoOn, Under;
    RunValid(ss, acts, i);
    NeverStuck(ss[i], n);
  }

  /** The call in progress that was made last can always go on: return, start a queued flight, or end its drain. */
  lemma CallsReturn(s: State)
    requires Valid(s) && s.stack != []
    ensures Enabled(s, LeaveListeners) || Enabled(s, LeaveClose) || Enabled(s, StartFlight) || Enabled(s, LeaveDrain)
  {
    hide Core;
  }
}
