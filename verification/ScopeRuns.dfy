/** Whole runs of a tree of cleanup scopes: custody, starts, settled reports (scope.ts, reverse order). */
module ScopeRuns {
  import opened Sequences
  import opened ScopeState
  import opened ScopeCustody
  import opened ScopeSteps
  import opened ScopeFlights

  // ---------- the calls in progress and the queue of starts ----------

  ghost predicate Draining(s: State) {
    exists i :: 0 <= i < |s.stack| && s.stack[i] == Drain
  }

  ghost predicate Notifying(s: State) {
    exists i :: 0 <= i < |s.stack| && s.stack[i] == Notify
  }

  /** Every opened flight has one close that will start it. */
  ghost predicate StackPlaced(ns: seq<Node>, stack: seq<Frame>) {
    && (forall i :: 0 <= i < |stack| && stack[i].Closing? && stack[i].started ==> InPhase(ns, stack[i].node, Opened))
    && (forall i, j :: 0 <= i < j < |stack| && stack[i].Closing? && stack[i].started && stack[i] == stack[j] ==> false)
    && (forall n :: InPhase(ns, n, Opened) ==> Closing(n, true) in stack)
  }

  /** Every queued flight has one place ahead in the queue. */
  ghost predicate QueuePlaced(ns: seq<Node>, queue: seq<int>, cursor: int) {
    && 0 <= cursor <= |queue|
    && (forall i :: cursor <= i < |queue| ==> InPhase(ns, queue[i], Queued))
    && (forall i, j :: cursor <= i < j < |queue| ==> queue[i] != queue[j])
    && (forall n :: InPhase(ns, n, Queued) ==> n in queue[cursor..])
  }

  ghost predicate Placed(s: State) {
    && StackPlaced(s.nodes, s.stack) && QueuePlaced(s.nodes, s.queue, s.cursor)
    && (!Draining(s) ==> s.cursor == 0)
    && (forall i, j :: 0 <= i < j < |s.stack| && s.stack[j] == Drain ==> s.stack[i] != Notify && s.stack[i] != Drain)
  }

  /** And a queue with something ahead is being drained, or will be when the abort listeners have returned. */
  ghost predicate Starts(s: State) {
    Placed(s) && (s.cursor < |s.queue| ==> Draining(s) || Notifying(s))
  }

  ghost predicate Valid(s: State) {
    Core(s) && Starts(s)
  }

  ghost function Begin(): State {
    State([Node(-1, -1, {}, {}, [], 0, [], false, false, NoFlight)], [], [], 0, [], {})
  }

  /** With no listener running and no drain in progress, a drain begins. */
  ghost function DrainIfReady(s: State): State {
    if Notifying(s) || Draining(s) then s else s.(stack := s.stack + [Drain])
  }

  ghost function Push(s: State, frame: Frame): State {
    s.(stack := s.stack + [frame])
  }

  ghost function Pop(s: State): State
    requires s.stack != []
  {
    s.(stack := s.stack[..|s.stack| - 1])
  }

  // ---------- closing and joining ----------

  /** Flights other than n's are as they were, and so are the calls in progress. */
  ghost predicate OthersFly(s: State, t: State, n: int) {
    && |t.nodes| == |s.nodes| && t.stack == s.stack && t.queue == s.queue && t.cursor == s.cursor
    && (forall m :: 0 <= m < |s.nodes| && m != n ==> t.nodes[m].flight == s.nodes[m].flight)
    && (forall m :: 0 <= m < |s.nodes| ==> t.nodes[m].up == s.nodes[m].up && t.nodes[m].entry == s.nodes[m].entry)
    && |t.entries| >= |s.entries| && (forall e :: 0 <= e < |s.entries| ==> t.entries[e].child == s.entries[e].child)
  }

  /** The common part of a close and a parent's join: seal the subtree, then open a flight unless one is in progress. */
  ghost function Seal(s: State, n: int): (t: State)
    requires Core(s) && 0 <= n < |s.nodes|
  {
    RequestCore(s, n);
    var t := Request(s, n);
    if t.nodes[n].flight == NoFlight then
      UnderSelf(s, n);
      OpenCore(t, n);
      Open(t, n)
    else t
  }

  lemma UnderSelf(s: State, n: int)
    requires 0 <= n < |s.nodes|
    ensures Under(s.nodes, n, n)
  {
  }

  lemma ReopenFlies(s: State, n: int)
    requires 0 <= n < |s.nodes|
    ensures OthersFly(s, Reopen(s, n), n) && Reopen(s, n).nodes[n].flight == s.nodes[n].flight
  {
  }

  lemma RequestFlies(s: State, n: int)
    requires 0 <= n < |s.nodes|
    ensures OthersFly(s, Request(s, n), n) && Request(s, n).nodes[n].flight == s.nodes[n].flight
  {
  }

  lemma OpenFlies(s: State, n: int)
    requires Core(s) && 0 <= n < |s.nodes| && s.nodes[n].flight == NoFlight && s.nodes[n].requested
    ensures Linked(s.nodes, s.entries) && Linked(Reopen(s, n).nodes, Reopen(s, n).entries)
    ensures OthersFly(s, Open(s, n), n)
    ensures Open(s, n).nodes[n].flight == NoFlight ==> Open(s, n).nodes[n].detached
    ensures Open(s, n).nodes[n].flight.InFlight? ==> Open(s, n).nodes[n].flight == InFlight(Opened, {})
  {
    hide Core, Reopen, Linked, Detach, Retry, Compact, Under;
    OpenCore(s, n);
    ReopenCore(s, n);
    ReopenFlies(s, n);
    var t := Reopen(s, n);
    if |t.nodes[n].live| == t.nodes[n].tombstones && t.nodes[n].pending == {} { DetachFlights(t, n); }
  }

  /** After sealing, everything below is requested, and the scope is in flight or has detached. */
  lemma SealFacts(s: State, n: int)
    requires Core(s) && 0 <= n < |s.nodes|
    ensures var t := Seal(s, n);
            && Core(t) && OthersFly(s, t, n)
            && (s.nodes[n].flight.InFlight? ==> t.nodes[n].flight == s.nodes[n].flight)
            && (s.nodes[n].flight == NoFlight && t.nodes[n].flight == NoFlight ==> t.nodes[n].detached)
            && (s.nodes[n].flight == NoFlight && t.nodes[n].flight.InFlight? ==>
              t.nodes[n].flight == InFlight(Opened, {}))
  {
    hide Core, Request, Open, Linked, Under;
    RequestCore(s, n);
    RequestFlies(s, n);
    var t := Request(s, n);
    if t.nodes[n].flight == NoFlight {
      UnderSelf(s, n);
      OpenCore(t, n);
      OpenFlies(t, n);
    }
  }

  /** The frames of a call of close or join; `notify` says whether abort listeners run. */
  ghost function Call(s: State, t: State, n: int, notify: bool): State
    requires 0 <= n < |s.nodes| && 0 <= n < |t.nodes|
  {
    var started := s.nodes[n].flight == NoFlight && t.nodes[n].flight.InFlight?;
    t.(stack := t.stack + [Closing(n, started)] + if notify then [Notify] else [])
  }

  ghost function CloseNow(s: State, n: int, notify: bool): State
    requires Core(s) && 0 <= n < |s.nodes|
  {
    SealFacts(s, n);
    Call(s, Seal(s, n), n, notify)
  }

  /** Attempting a child scope joins its flight; a child with nothing left has detached at once. */
  ghost function JoinChild(s: State, n: int, notify: bool): State
    requires CanAttempt(s, n) && Core(s)
  {
    AttemptCore(s, n);
    var t, e := Attempt(s, n), Top(s, n);
    if t.entries[e].child == -1 then t
    else
      AttemptJoins(s, n);
      var c := t.entries[e].child;
      var u := Seal(t, c);
      SealFacts(t, c);
      Call(t, Tell(u, n, if u.nodes[c].flight.InFlight? then None else Some(true)), c, notify)
  }

  lemma AttemptJoins(s: State, n: int)
    requires Core(s) && CanAttempt(s, n)
    ensures 0 <= Top(s, n) < |s.entries|
    ensures var t, e := Attempt(s, n), Top(s, n);
            && |t.nodes| == |s.nodes| && t.entries[e].child == s.entries[e].child
            && (t.entries[e].child != -1 ==>
              n < t.entries[e].child < |t.nodes| && t.nodes[t.entries[e].child].entry == e)
            && (t.entries[e].child != -1 ==>
              t.nodes[n].flight.InFlight? && t.nodes[n].flight.phase == Joining(e, Some(false)))
  {
    hide Sealed, SpentTrees, AllLanes, DropGone, Compact;
    assert Held(s.entries, n, s.nodes[n]);
    TopIsLive(s, n);
    hide Top, Held, AllKept;
  }

  // ---------- what keeps the starts in order ----------

  ghost predicate SamePhases(s: State, t: State) {
    forall m ::
      (InPhase(t.nodes, m, Opened) <==> InPhase(s.nodes, m, Opened))
        && (InPhase(t.nodes, m, Queued) <==> InPhase(s.nodes, m, Queued))
  }

  lemma StartsQuiet(s: State, t: State)
    requires Starts(s) && SamePhases(s, t) && t.stack == s.stack && t.queue == s.queue && t.cursor == s.cursor
    ensures Starts(t)
  {
  }

  lemma InStack(a: seq<Frame>, f: Frame, g: Frame)
    ensures g in a + [f] <==> g in a || g == f
  {
  }

  /** A frame is pushed that starts nothing, or starts the flight that has just opened. */
  lemma StartsPush(s: State, t: State, f: Frame)
    requires Starts(s) && t.queue == s.queue && t.cursor == s.cursor && t.stack == s.stack + [f] && f != Drain
    requires forall m :: InPhase(t.nodes, m, Queued) <==> InPhase(s.nodes, m, Queued)
    requires forall m :: InPhase(t.nodes, m, Opened) <==> InPhase(s.nodes, m, Opened) || f == Closing(m, true)
    requires f.Closing? && f.started ==> !InPhase(s.nodes, f.node, Opened)
    ensures Starts(t)
  {
    forall n | InPhase(t.nodes, n, Opened) ensures Closing(n, true) in t.stack {
      InStack(s.stack, f, Closing(n, true));
    }
    assert forall i :: 0 <= i < |s.stack| ==> t.stack[i] == s.stack[i];
    assert Draining(t) <==> Draining(s);
    assert Notifying(s) ==> Notifying(t);
  }

  lemma DrainStarts(s: State)
    requires Placed(s)
    ensures Starts(DrainIfReady(s))
  {
    var t := DrainIfReady(s);
    if t != s {
      forall n | InPhase(t.nodes, n, Opened) ensures Closing(n, true) in t.stack {
        InStack(s.stack, Drain, Closing(n, true));
      }
      assert t.stack[|s.stack|] == Drain;
      assert forall i :: 0 <= i < |s.stack| ==> t.stack[i] == s.stack[i];
    }
  }

  /** Abort listeners have returned. */
  ghost function NotifyReturns(s: State): State
    requires s.stack != []
  {
    DrainIfReady(Pop(s))
  }

  lemma NotifyReturnsStarts(s: State)
    requires Starts(s) && s.stack != [] && s.stack[|s.stack| - 1] == Notify
    ensures Starts(NotifyReturns(s))
  {
    PopPlaced(s);
    DrainStarts(Pop(s));
  }

  lemma PopPlaced(s: State)
    requires Placed(s)
    requires s.stack != []
    requires s.stack[|s.stack| - 1] == Notify || (s.stack[|s.stack| - 1].Closing? && !s.stack[|s.stack| - 1].started)
    ensures Placed(Pop(s))
  {
    var t, f := Pop(s), s.stack[|s.stack| - 1];
    assert s.stack == t.stack + [f];
    forall n | InPhase(t.nodes, n, Opened) ensures Closing(n, true) in t.stack {
      InStack(t.stack, f, Closing(n, true));
    }
    assert forall i :: 0 <= i < |t.stack| ==> s.stack[i] == t.stack[i];
    assert Draining(s) <==> Draining(t);
  }

  ghost function Reach(s: State, n: int, phase: Phase): State {
    if 0 <= n < |s.nodes| && s.nodes[n].flight.InFlight? then Fly(s, n, InFlight(phase, s.nodes[n].flight.attempted))
    else s
  }

  ghost predicate CanReturn(s: State) {
    s.stack != [] && s.stack[|s.stack| - 1].Closing?
  }

  /** The rest of a close: a flight that it opened joins the queue of starts. */
  ghost function CloseReturns(s: State): State
    requires CanReturn(s)
  {
    var f := s.stack[|s.stack| - 1];
    if !f.started then Pop(s)
    else DrainIfReady(Reach(Pop(s), f.node, Queued).(queue := s.queue + [f.node]))
  }

  lemma ReachPhases(s: State, n: int, phase: Phase)
    requires 0 <= n < |s.nodes| && s.nodes[n].flight.InFlight?
    ensures var t := Reach(s, n, phase);
            && t.stack == s.stack && t.queue == s.queue && t.cursor == s.cursor
            && Moved(s.nodes, t.nodes, n, phase)
  {
  }

  /** One flight moves to another phase. */
  ghost predicate Moved(ns: seq<Node>, ms: seq<Node>, n: int, phase: Phase) {
    forall m, p :: InPhase(ms, m, p) <==> (if m == n then p == phase else InPhase(ns, m, p))
  }

  lemma QueuedStack(ns: seq<Node>, ms: seq<Node>, rest: seq<Frame>, n: int)
    requires StackPlaced(ns, rest + [Closing(n, true)]) && Moved(ns, ms, n, Queued)
    ensures StackPlaced(ms, rest)
  {
    hide InPhase;
    var all := rest + [Closing(n, true)];
    assert forall i :: 0 <= i < |rest| ==> all[i] == rest[i];
    assert all[|rest|] == Closing(n, true);
    forall m | InPhase(ms, m, Opened) ensures Closing(m, true) in rest {
      assert InPhase(ns, m, Opened);
      assert Closing(m, true) in all;
    }
  }

  lemma QueuedLast(ns: seq<Node>, ms: seq<Node>, queue: seq<int>, cursor: int, n: int)
    requires QueuePlaced(ns, queue, cursor) && InPhase(ns, n, Opened) && Moved(ns, ms, n, Queued)
    ensures QueuePlaced(ms, queue + [n], cursor)
  {
    var all := queue + [n];
    assert all[cursor..] == queue[cursor..] + [n];
    forall i | cursor <= i < |queue| ensures all[i] != n { assert InPhase(ns, queue[i], Queued); }
    hide InPhase;
    forall m | InPhase(ms, m, Queued) ensures m in all[cursor..] { assert m != n ==> InPhase(ns, m, Queued); }
  }

  lemma QueuedPlaced(s: State)
    requires Placed(s) && CanReturn(s) && s.stack[|s.stack| - 1].started
    ensures var n := s.stack[|s.stack| - 1].node; Placed(Reach(Pop(s), n, Queued).(queue := s.queue + [n]))
  {
    hide Reach, StackPlaced, QueuePlaced, Moved, InPhase;
    var n, p := s.stack[|s.stack| - 1].node, Pop(s);
    OpenedTop(s);
    ReachPhases(p, n, Queued);
    var t := Reach(p, n, Queued).(queue := s.queue + [n]);
    assert s.stack == p.stack + [Closing(n, true)];
    QueuedStack(s.nodes, t.nodes, p.stack, n);
    QueuedLast(s.nodes, t.nodes, s.queue, s.cursor, n);
    assert forall i :: 0 <= i < |p.stack| ==> s.stack[i] == p.stack[i];
    assert Draining(s) ==> Draining(t);
  }

  lemma OpenedTop(s: State)
    requires StackPlaced(s.nodes, s.stack) && CanReturn(s) && s.stack[|s.stack| - 1].started
    ensures var n := s.stack[|s.stack| - 1].node;
      0 <= n < |s.nodes| && s.nodes[n].flight.InFlight? && InPhase(s.nodes, n, Opened)
  {
    assert InPhase(s.nodes, s.stack[|s.stack| - 1].node, Opened);
  }

  lemma CloseReturnsStarts(s: State)
    requires Starts(s) && CanReturn(s)
    ensures Starts(CloseReturns(s))
  {
    if s.stack[|s.stack| - 1].started {
      QueuedPlaced(s);
      hide Placed;
      DrainStarts(Reach(Pop(s), s.stack[|s.stack| - 1].node, Queued).(queue :=
        s.queue + [s.stack[|s.stack| - 1].node]));
    } else {
      PopPlaced(s);
      if s.cursor < |s.queue| { StillDraining(s); }
    }
  }

  lemma StillDraining(s: State)
    requires CanReturn(s) && (Draining(s) || Notifying(s))
    ensures Draining(Pop(s)) || Notifying(Pop(s))
  {
    var i :| 0 <= i < |s.stack| && s.stack[i] in {Drain, Notify};
    assert Pop(s).stack[i] == s.stack[i];
  }

  ghost predicate CanStart(s: State) {
    s.stack != [] && s.stack[|s.stack| - 1] == Drain && 0 <= s.cursor < |s.queue|
  }

  /** The drain starts the next queued flight. */
  ghost function StartNext(s: State): State
    requires CanStart(s)
  {
    Reach(s, s.queue[s.cursor], Running).(cursor := s.cursor + 1)
  }

  lemma QueuedNext(s: State)
    requires QueuePlaced(s.nodes, s.queue, s.cursor) && s.cursor < |s.queue|
    ensures InPhase(s.nodes, s.queue[s.cursor], Queued)
  {
  }

  lemma StartNextStarts(s: State)
    requires Starts(s) && CanStart(s)
    ensures Starts(StartNext(s))
  {
    var n, t := s.queue[s.cursor], StartNext(s);
    assert InPhase(s.nodes, n, Queued);
    forall m | InPhase(t.nodes, m, Opened) ensures Closing(m, true) in t.stack { assert InPhase(s.nodes, m, Opened); }
    assert s.queue[s.cursor..] == [n] + t.queue[t.cursor..];
    forall m | InPhase(t.nodes, m, Queued) ensures m in t.queue[t.cursor..] { assert InPhase(s.nodes, m, Queued); }
    assert Draining(t) <==> Draining(s);
    assert s.stack[|s.stack| - 1] == Drain;
  }

  /** No abort listener of the tree is running when a flight starts, and its whole subtree is sealed. */
  lemma StartsQuietly(s: State)
    requires Valid(s) && CanStart(s)
    ensures !Notifying(s)
    ensures var n := s.queue[s.cursor];
            InPhase(s.nodes, n, Queued) && InPhase(StartNext(s).nodes, n, Running)
              && forall m :: Under(s.nodes, n, m) ==> s.nodes[m].requested
  {
    hide Core;
    var n := s.queue[s.cursor];
    FlyingIsRequested(s, n);
    forall m | Under(s.nodes, n, m) ensures s.nodes[m].requested { SealedBelow(s, n, m); }
  }

  lemma {:induction false} SealedBelow(s: State, n: int, m: int)
    requires Core(s) && 0 <= n < |s.nodes| && s.nodes[n].requested && Under(s.nodes, n, m)
    ensures s.nodes[m].requested
    decreases m
  {
    hide Held, Kept, Lane, AllHeld, AllKept, AllLanes, Linked, SpentTrees;
    if m != n { SealedBelow(s, n, s.nodes[m].up); }
  }

  ghost predicate CanEndDrain(s: State) {
    s.stack != [] && s.stack[|s.stack| - 1] == Drain && s.cursor == |s.queue|
  }

  ghost function DrainEnds(s: State): State
    requires CanEndDrain(s)
  {
    Pop(s).(queue := [], cursor := 0)
  }

  lemma DrainEndsStarts(s: State)
    requires Starts(s) && CanEndDrain(s)
    ensures Starts(DrainEnds(s))
  {
    var t := DrainEnds(s);
    assert s.stack == t.stack + [Drain];
    forall m | InPhase(t.nodes, m, Opened) ensures Closing(m, true) in t.stack {
      InStack(t.stack, Drain, Closing(m, true));
    }
    assert forall i :: 0 <= i < |t.stack| ==> s.stack[i] == t.stack[i];
    assert s.queue[s.cursor..] == [];
  }
}
