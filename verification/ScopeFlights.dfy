/** Closing: how a flight opens, attempts what is held, and settles (scope.ts, reverse order). */
module ScopeFlights {
  import opened Sequences
  import opened ScopeState
  import opened ScopeCustody
  import opened ScopeSteps

  ghost predicate InPhase(ns: seq<Node>, n: int, phase: Phase) {
    0 <= n < |ns| && ns[n].flight.InFlight? && ns[n].flight.phase == phase
  }

  // ---------- one attempt ----------

  ghost predicate CanAttempt(s: State, n: int) {
    InPhase(s.nodes, n, Running) && s.nodes[n].pending == {} && DropGone(s.entries, s.nodes[n].live) != []
  }

  /** The entry on top of the stack, below the tombstones. */
  ghost function Top(s: State, n: int): int
    requires CanAttempt(s, n)
  {
    var d := DropGone(s.entries, s.nodes[n].live);
    d[|d| - 1]
  }

  /** It is popped and becomes the one being released. */
  ghost function Attempt(s: State, n: int): State
    requires CanAttempt(s, n) && 0 <= Top(s, n) < |s.entries|
  {
    var node, d, e := s.nodes[n], DropGone(s.entries, s.nodes[n].live), Top(s, n);
    var phase := if s.entries[e].child == -1 then Releasing(e) else Joining(e, Some(false));
    Changed(s, n, node.(live := d[..|d| - 1], tombstones := node.tombstones - (|node.live| - |d|), active := {e},
                        flight := InFlight(phase, node.flight.attempted + {e})),
            s.entries[e := s.entries[e].(where := Active)])
  }

  lemma TopIsLive(s: State, n: int)
    requires CanAttempt(s, n) && Held(s.entries, n, s.nodes[n])
    ensures var e := Top(s, n);
            && Mine(s.entries, n, e) && s.entries[e].where == Live && e !in s.nodes[n].flight.attempted
            && Compact(s.entries, s.nodes[n].live) != []
            && e == Compact(s.entries, s.nodes[n].live)[|Compact(s.entries, s.nodes[n].live)| - 1]
  {
    PopIgnoresTombstones(s.entries, s.nodes[n].live);
    var d := DropGone(s.entries, s.nodes[n].live);
    assert d[|d| - 1] == s.nodes[n].live[|d| - 1];
    hide Compact, DropGone;
  }

  lemma ListPop(es: seq<Entry>, n: int, l: seq<int>, k: nat)
    requires Lists(es, n, l, Live) && k < |l|
    ensures Lists(es[l[k] := es[l[k]].(where := Active)], n, l[..k], Live)
  {
  }

  lemma ListUntouched(es: seq<Entry>, n: int, l: seq<int>, w: Where, e: int, v: Where)
    requires Lists(es, n, l, w) && 0 <= e < |es| && es[e].where !in {w, Gone}
    ensures Lists(es[e := es[e].(where := v)], n, l, w)
  {
  }

  lemma AttemptCounts(es: seq<Entry>, live: seq<int>, e: int)
    requires DropGone(es, live) != []
    requires DropGone(es, live)[|DropGone(es, live)| - 1] == e
    requires 0 <= e < |es|
    requires es[e].where == Live
    ensures var d, fs := DropGone(es, live), es[e := es[e].(where := Active)];
            CountGone(fs, d[..|d| - 1]) == CountGone(es, live) - (|live| - |d|)
  {
    var d, fs := DropGone(es, live), es[e := es[e].(where := Active)];
    PopIgnoresTombstones(es, live);
    CompactSame(es, fs, d[..|d| - 1]);
    hide Compact, DropGone;
  }

  lemma AttemptHeld(s: State, n: int)
    requires CanAttempt(s, n) && Held(s.entries, n, s.nodes[n]) && 0 <= Top(s, n) < |s.entries|
    ensures Held(Attempt(s, n).entries, n, Attempt(s, n).nodes[n])
  {
    TopIsLive(s, n);
    var node, e, d := s.nodes[n], Top(s, n), DropGone(s.entries, s.nodes[n].live);
    assert d <= node.live && node.live[|d| - 1] == e && node.live[..|d| - 1] == d[..|d| - 1];
    AttemptCounts(s.entries, node.live, e);
    hide Lists, Compact, DropGone;
    ListPop(s.entries, n, node.live, |d| - 1);
    ListUntouched(s.entries, n, node.failed, Failed, e, Active);
  }

  lemma PoppedStays(es: seq<Entry>, live: seq<int>, x: int)
    requires x in live && !IsGone(es, x)
    ensures DropGone(es, live) != []
    ensures var d := DropGone(es, live); x != d[|d| - 1] ==> x in d[..|d| - 1]
  {
    CompactMembers(es, live);
    PopIgnoresTombstones(es, live);
    var d := DropGone(es, live);
    if d != [] { CompactMembers(es, d[..|d| - 1]); }
    hide DropGone;
    var c := Compact(es, live);
    hide Compact;
    assert x in c;
    assert c == c[..|c| - 1] + [c[|c| - 1]];
  }

  lemma AttemptListed(s: State, n: int)
    requires Core(s) && CanAttempt(s, n) && 0 <= Top(s, n) < |s.entries|
    ensures var t := Attempt(s, n); forall e :: Mine(t.entries, n, e) ==> Listed(t.nodes[n], t.entries[e], e)
  {
    assert Held(s.entries, n, s.nodes[n]);
    TopIsLive(s, n);
    hide Lane, Sealed, SpentTrees, AllLanes, AllHeld, Lists, Compact, DropGone;
    var t := Attempt(s, n);
    forall e | Mine(t.entries, n, e) ensures Listed(t.nodes[n], t.entries[e], e) {
      assert Kept(s.nodes, s.entries, e);
      if s.entries[e].where == Live { PoppedStays(s.entries, s.nodes[n].live, e); }
    }
  }

  lemma AttemptChange(s: State, n: int)
    requires Core(s)
    requires CanAttempt(s, n)
    requires 0 <= Top(s, n) < |s.entries|
    requires Mine(s.entries, n, Top(s, n))
    requires s.entries[Top(s, n)].where == Live
    ensures var t := Attempt(s, n);
      OwnChange(s, n, t.entries) && NodeChange(s, n, t.nodes[n]) && Lane(t.nodes, t.entries, t.nodes[n])
  {
    hide Held, Kept, AllLanes, AllHeld, AllKept, Sealed, SpentTrees, Compact, DropGone;
  }

  lemma TopIsHeld(s: State, n: int)
    requires Core(s) && CanAttempt(s, n)
    ensures 0 <= Top(s, n) < |s.entries| && s.entries[Top(s, n)].where == Live
  {
    hide Lists, Compact, DropGone, Top;
    assert Held(s.entries, n, s.nodes[n]);
    TopIsLive(s, n);
  }

  lemma AttemptCore(s: State, n: int)
    requires Core(s) && CanAttempt(s, n)
    ensures 0 <= Top(s, n) < |s.entries| && Core(Attempt(s, n))
  {
    hide Held, Lane, Sealed, SpentTrees, AllLanes, AllKept, Linked, DropGone, Compact, Top, OwnChange, NodeChange;
    assert Held(s.entries, n, s.nodes[n]);
    TopIsLive(s, n);
    AttemptHeld(s, n);
    AttemptListed(s, n);
    AttemptChange(s, n);
    var t := Attempt(s, n);
    LocalCore(s, n, t.nodes[n], t.entries);
  }

  // ---------- its outcome ----------

  ghost predicate CanResolve(s: State, n: int, failed: bool) {
    && 0 <= n < |s.nodes| && s.nodes[n].flight.InFlight?
    && match s.nodes[n].flight.phase
       case Releasing(e) => 0 <= e < |s.entries|
       case Joining(e, outcome) => 0 <= e < |s.entries| && outcome == Some(!failed)
       case _ => false
  }

  /**
   * The release has succeeded or thrown, or the joined child has reported; what is not gone by itself is released
   * or has failed.
   */
  ghost function Resolve(s: State, n: int, failed: bool): State
    requires CanResolve(s, n, failed)
  {
    var node, e := s.nodes[n], s.nodes[n].flight.phase.entry;
    var was := s.entries[e];
    var now := if was.where != Active then was.where else if failed then Failed else Gone;
    Changed(s, n, node.(active := {}, flight := InFlight(Running, node.flight.attempted),
                        failed := if was.where == Active && failed then node.failed + [e] else node.failed),
            s.entries[e := was.(where := now)])
  }

  lemma ListFailed(es: seq<Entry>, n: int, l: seq<int>, e: int)
    requires Lists(es, n, l, Failed) && Mine(es, n, e) && es[e].where == Active
    ensures Lists(es[e := es[e].(where := Failed)], n, l + [e], Failed)
  {
  }

  lemma ResolveHeld(s: State, n: int, failed: bool)
    requires CanResolve(s, n, failed) && Held(s.entries, n, s.nodes[n])
    ensures Held(Resolve(s, n, failed).entries, n, Resolve(s, n, failed).nodes[n])
  {
    hide Lists, Compact;
    var node, e, es := s.nodes[n], s.nodes[n].flight.phase.entry, s.entries;
    assert e in node.active;
    var t := Resolve(s, n, failed);
    if es[e].where == Active {
      var w := if failed then Failed else Gone;
      LiveCount(es, n, node.live, e, w);
      ListUntouched(es, n, node.live, Live, e, w);
      if failed { ListFailed(es, n, node.failed, e); } else { ListUntouched(es, n, node.failed, Failed, e, Gone); }
    } else {
      assert t.entries == es;
    }
  }

  lemma LiveCount(es: seq<Entry>, n: int, l: seq<int>, e: int, w: Where)
    requires Lists(es, n, l, Live) && 0 <= e < |es| && es[e].where == Active
    ensures CountGone(es[e := es[e].(where := w)], l) == CountGone(es, l)
  {
    CompactSame(es, es[e := es[e].(where := w)], l);
  }

  lemma ResolveListed(s: State, n: int, failed: bool)
    requires Core(s) && CanResolve(s, n, failed)
    ensures var t := Resolve(s, n, failed); forall e :: Mine(t.entries, n, e) ==> Listed(t.nodes[n], t.entries[e], e)
  {
    assert Held(s.entries, n, s.nodes[n]);
    hide Lane, Sealed, SpentTrees, AllLanes, AllHeld, Lists, Compact;
    var t := Resolve(s, n, failed);
    forall e | Mine(t.entries, n, e) ensures Listed(t.nodes[n], t.entries[e], e) { assert Kept(s.nodes, s.entries, e); }
  }

  /**
   * What the flight is at work on is the scope's own; a joined child that reported completely is gone, a resource
   * is not.
   */
  lemma AtWork(s: State, n: int)
    requires Core(s) && 0 <= n < |s.nodes| && s.nodes[n].flight.InFlight?
    requires s.nodes[n].flight.phase.Releasing? || s.nodes[n].flight.phase.Joining?
    ensures var e := s.nodes[n].flight.phase.entry;
            && Mine(s.entries, n, e) && s.entries[e].where in {Active, Gone}
            && (s.nodes[n].flight.phase.Releasing? ==> s.entries[e].child == -1 && s.entries[e].where == Active)
            && (s.nodes[n].flight.phase.Joining? ==>
              0 <= s.entries[e].child < |s.nodes|
                && (s.nodes[n].flight.phase.outcome == Some(true) ==> s.entries[e].where == Gone))
  {
    hide AllKept, Sealed, SpentTrees, Compact, Lists, Linked;
    assert Held(s.entries, n, s.nodes[n]) && Lane(s.nodes, s.entries, s.nodes[n]);
    assert s.nodes[n].flight.phase.entry in s.nodes[n].active;
  }

  lemma SpentPending(s: State, n: int)
    requires Core(s) && n in s.spent
    ensures 0 <= n < |s.nodes| && s.nodes[n].pending == {}
  {
    hide Held, Kept, Lane, AllHeld, AllKept, AllLanes, Linked, Sealed;
    assert Done(s.nodes, s.entries, n);
  }

  lemma ResolveChange(s: State, n: int, failed: bool)
    requires Core(s) && CanResolve(s, n, failed)
    ensures var t := Resolve(s, n, failed); OwnChange(s, n, t.entries) && NodeChange(s, n, t.nodes[n])
  {
    hide Core, Compact, Lists;
    AtWork(s, n);
    if n in s.spent { SpentPending(s, n); }
  }

  lemma ResolveCore(s: State, n: int, failed: bool)
    requires Core(s) && CanResolve(s, n, failed)
    ensures Core(Resolve(s, n, failed))
  {
    hide Held, Sealed, SpentTrees, AllLanes, AllKept, Linked, Compact, OwnChange, NodeChange;
    assert Held(s.entries, n, s.nodes[n]);
    ResolveHeld(s, n, failed);
    ResolveListed(s, n, failed);
    ResolveChange(s, n, failed);
    var t := Resolve(s, n, failed);
    LocalCore(s, n, t.nodes[n], t.entries);
  }

  // ---------- opening and settling ----------

  lemma {:induction false} AllGone(es: seq<Entry>, live: seq<int>)
    requires CountGone(es, live) == |live|
    ensures forall i :: 0 <= i < |live| ==> IsGone(es, live[i])
  {
    CompactMembers(es, live);
    assert Compact(es, live) == [];
    hide Compact;
    forall i | 0 <= i < |live| ensures IsGone(es, live[i]) { assert live[i] in live; }
  }

  /**
   * A new flight retries what has failed; with nothing held and nothing being set up there is none, and the scope
   * detaches.
   */
  ghost function Open(s: State, n: int): State
    requires Linked(s.nodes, s.entries) && 0 <= n < |s.nodes| && Linked(Reopen(s, n).nodes, Reopen(s, n).entries)
  {
    var t := Reopen(s, n);
    if |t.nodes[n].live| == t.nodes[n].tombstones && t.nodes[n].pending == {} then Detach(t, n)
    else Fly(t, n, InFlight(Opened, {}))
  }

  lemma EmptyHasNoDebts(s: State, n: int)
    requires 0 <= n < |s.nodes| && Held(s.entries, n, s.nodes[n]) && s.nodes[n].flight == NoFlight
    requires s.nodes[n].pending == {} && s.nodes[n].failed == [] && |s.nodes[n].live| == s.nodes[n].tombstones
    ensures NoDebts(s.nodes, s.entries, n)
  {
    AllGone(s.entries, s.nodes[n].live);
    hide Compact;
    forall i | 0 <= i < |s.nodes[n].live| ensures NoDebt(s.nodes, s.entries, n, s.nodes[n].live[i], Live) {}
  }

  lemma DetachWithoutDebts(s: State, n: int)
    requires Core(s) && 0 <= n < |s.nodes| && s.nodes[n].requested && NoDebts(s.nodes, s.entries, n)
    ensures Core(Detach(s, n))
    ensures forall m :: Under(s.nodes, n, m) ==> Done(s.nodes, s.entries, m)
  {
    hide Core, NoDebts, Done, Detach;
    forall m | Under(s.nodes, n, m) ensures Done(s.nodes, s.entries, m) { TreeDone(s, n, m); }
    DetachCore(s, n);
  }

  lemma OpenCore(s: State, n: int)
    requires Core(s) && 0 <= n < |s.nodes| && s.nodes[n].flight == NoFlight && s.nodes[n].requested
    ensures Linked(s.nodes, s.entries) && Linked(Reopen(s, n).nodes, Reopen(s, n).entries) && Core(Open(s, n))
  {
    hide Held, Lane, Sealed, SpentTrees, AllLanes, AllKept, Linked, Compact, NoDebts, Detach, Retry;
    ReopenCore(s, n);
    var t := Reopen(s, n);
    assert Held(t.entries, n, t.nodes[n]);
    if |t.nodes[n].live| == t.nodes[n].tombstones && t.nodes[n].pending == {} {
      EmptyHasNoDebts(t, n);
      DetachWithoutDebts(t, n);
    } else {
      OpenLane(t, n);
      FlyCore(t, n, InFlight(Opened, {}));
    }
  }

  lemma OpenLane(s: State, n: int)
    requires 0 <= n < |s.nodes|
    ensures Lane(s.nodes[n := s.nodes[n].(flight := InFlight(Opened, {}))], s.entries,
      s.nodes[n].(flight := InFlight(Opened, {})))
  {
  }

  ghost function Tell(s: State, p: int, outcome: Option<bool>): State
    requires 0 <= p < |s.nodes| && s.nodes[p].flight.InFlight? && s.nodes[p].flight.phase.Joining?
  {
    Fly(s, p, InFlight(Joining(s.nodes[p].flight.phase.entry, outcome), s.nodes[p].flight.attempted))
  }

  lemma TellCore(s: State, p: int, outcome: Option<bool>)
    requires Core(s) && 0 <= p < |s.nodes| && s.nodes[p].flight.InFlight? && s.nodes[p].flight.phase.Joining?
    requires outcome == Some(true) ==>
      var e := s.nodes[p].flight.phase.entry; 0 <= e < |s.entries| && s.entries[e].where == Gone
    requires outcome == None ==>
      var e := s.nodes[p].flight.phase.entry;
        0 <= e < |s.entries| && 0 <= s.entries[e].child < |s.nodes| && s.entries[e].child != p
          && s.nodes[s.entries[e].child].flight.InFlight?
    ensures Core(Tell(s, p, outcome))
  {
    hide Compact, Lists, AllKept, Linked, Sealed, SpentTrees, Fly;
    assert Held(s.entries, p, s.nodes[p]) && Lane(s.nodes, s.entries, s.nodes[p]);
    hide AllHeld, AllLanes, Core;
    FlyCore(s, p, InFlight(Joining(s.nodes[p].flight.phase.entry, outcome), s.nodes[p].flight.attempted));
  }

  /** Only the parent can be waiting for a scope. */
  lemma OnlyParentAwaits(s: State, n: int, m: int)
    requires Core(s) && 0 < n < |s.nodes| && 0 <= m < |s.nodes| && Awaits(s.nodes[m], s.nodes[n].entry)
    ensures m == s.nodes[n].up
  {
    hide Compact, Lists, AllKept, Sealed, SpentTrees, AllLanes;
    assert Held(s.entries, m, s.nodes[m]);
    assert s.nodes[n].entry in s.nodes[m].active;
    assert Mine(s.entries, s.nodes[n].up, s.nodes[n].entry);
  }

  lemma RootNotAwaited(s: State, m: int)
    requires Core(s) && 0 <= m < |s.nodes|
    ensures !Awaits(s.nodes[m], s.nodes[0].entry)
  {
    hide Compact, Lists, AllKept, Sealed, SpentTrees, AllLanes;
    assert Held(s.entries, m, s.nodes[m]);
    assert -1 !in s.nodes[m].active;
  }

  /** The parent's flight, when it waits for this scope. */
  ghost predicate Waiting(s: State, n: int)
    requires 0 <= n < |s.nodes|
  {
    0 <= s.nodes[n].up < |s.nodes| && s.nodes[n].up != n && Awaits(s.nodes[s.nodes[n].up], s.nodes[n].entry)
  }

  ghost predicate CanSettle(s: State, n: int) {
    InPhase(s.nodes, n, Running) && s.nodes[n].pending == {} && DropGone(s.entries, s.nodes[n].live) == []
  }

  /** The flight ends; the list of live entries has been popped to the bottom. */
  ghost function End(s: State, n: int): State
    requires CanSettle(s, n)
  {
    var t := if Waiting(s, n) then Tell(s, s.nodes[n].up, Some(false)) else s;
    var node := t.nodes[n];
    Changed(t, n, node.(live := [], tombstones := node.tombstones - |node.live|, flight := NoFlight), t.entries)
  }

  ghost function Hear(s: State, p: int): State {
    if 0 <= p < |s.nodes| && s.nodes[p].flight.InFlight? && s.nodes[p].flight.phase.Joining? then Tell(s, p, Some(true))
    else s
  }

  lemma ToldFirst(s: State, n: int)
    requires Core(s) && CanSettle(s, n)
    ensures var t := if Waiting(s, n) then Tell(s, s.nodes[n].up, Some(false)) else s;
            && Core(t) && |t.nodes| == |s.nodes| && t.entries == s.entries && t.nodes[n] == s.nodes[n]
            && forall m :: 0 <= m < |t.nodes| ==> !Awaits(t.nodes[m], t.nodes[n].entry)
  {
    hide Core, DropGone;
    var t := if Waiting(s, n) then Tell(s, s.nodes[n].up, Some(false)) else s;
    if Waiting(s, n) { TellCore(s, s.nodes[n].up, Some(false)); }
    forall m | 0 <= m < |t.nodes| ensures !Awaits(t.nodes[m], t.nodes[n].entry) {
      if n == 0 {
        RootNotAwaited(s, m);
      } else if Awaits(s.nodes[m], s.nodes[n].entry) {
        UpIsSmaller(s, n);
        OnlyParentAwaits(s, n, m);
      }
    }
  }

  lemma {:induction false} DropAll(es: seq<Entry>, live: seq<int>)
    requires DropGone(es, live) == []
    ensures CountGone(es, live) == |live| && forall i :: 0 <= i < |live| ==> IsGone(es, live[i])
  {
    PopIgnoresTombstones(es, live);
    AllGone(es, live);
  }

  lemma EndHeld(s: State, n: int)
    requires Core(s) && CanSettle(s, n)
    ensures Held(s.entries, n,
      s.nodes[n].(live := [], tombstones := s.nodes[n].tombstones - |s.nodes[n].live|, flight := NoFlight))
    ensures forall e :: Mine(s.entries, n, e) ==>
      Listed(s.nodes[n].(live := [], tombstones := s.nodes[n].tombstones - |s.nodes[n].live|, flight := NoFlight),
        s.entries[e], e)
  {
    hide Compact, Lists, Sealed, SpentTrees, AllLanes;
    assert Held(s.entries, n, s.nodes[n]);
    DropAll(s.entries, s.nodes[n].live);
    hide DropGone;
    EmptyLists(s.entries, n);
    forall e | Mine(s.entries, n, e)
      ensures Listed(s.nodes[n].(live := [], tombstones := 0, flight := NoFlight), s.entries[e], e) {
      assert Kept(s.nodes, s.entries, e);
    }
  }

  lemma EndCore(s: State, n: int)
    requires Core(s) && CanSettle(s, n)
    ensures Core(End(s, n))
    ensures End(s, n).nodes[n].requested == s.nodes[n].requested
    ensures Linked(End(s, n).nodes, End(s, n).entries)
  {
    hide Held, Lane, Sealed, SpentTrees, AllLanes, AllKept, AllHeld, Linked, Compact, DropGone, Tell;
    ToldFirst(s, n);
    var t := if Waiting(s, n) then Tell(s, s.nodes[n].up, Some(false)) else s;
    EndHeld(t, n);
    EndLane(t, n);
    if n in t.spent { SpentPending(t, n); }
    var node := t.nodes[n];
    LocalCore(t, n, node.(live := [], tombstones := node.tombstones - |node.live|, flight := NoFlight), t.entries);
  }

  lemma EndLane(s: State, n: int)
    requires 0 <= n < |s.nodes|
    ensures var node :=
      s.nodes[n].(live := [], tombstones := s.nodes[n].tombstones - |s.nodes[n].live|, flight := NoFlight);
            Lane(s.nodes[n := node], s.entries, node)
  {
  }

  lemma FlyingIsRequested(s: State, n: int)
    requires Core(s) && 0 <= n < |s.nodes| && s.nodes[n].flight.InFlight?
    ensures s.nodes[n].requested
  {
    hide Lists, Compact;
    assert Held(s.entries, n, s.nodes[n]);
  }

  /** It reports; a complete report detaches the scope, and the parent's flight hears of it either way. */
  ghost function Settle(s: State, n: int): State
    requires Core(s) && CanSettle(s, n)
  {
    EndCore(s, n);
    var t := End(s, n);
    if !NoDebts(t.nodes, t.entries, n) then t
    else if Waiting(s, n) then Hear(Detach(t, n), s.nodes[n].up) else Detach(t, n)
  }

  lemma {:induction false} SpentBelow(s: State, n: int, m: int)
    requires Core(s) && n in s.spent && Under(s.nodes, n, m)
    ensures m in s.spent && Done(s.nodes, s.entries, m)
    decreases m
  {
    hide Held, Kept, Lane, AllHeld, AllKept, AllLanes, Linked, Done;
    if m != n { SpentBelow(s, n, s.nodes[m].up); }
  }

  lemma DetachFlights(s: State, n: int)
    requires Core(s) && Linked(s.nodes, s.entries) && 0 <= n < |s.nodes|
    ensures var t := Detach(s, n);
            && |t.nodes| == |s.nodes| && t.nodes[n].detached
            && t.queue == s.queue && t.cursor == s.cursor && t.stack == s.stack
            && (forall m :: 0 <= m < |s.nodes| ==>
                  && t.nodes[m].flight == s.nodes[m].flight && t.nodes[m].up == s.nodes[m].up
                  && t.nodes[m].entry == s.nodes[m].entry && t.nodes[m].requested == s.nodes[m].requested)
            && |t.entries| == |s.entries|
            && (forall e :: 0 <= e < |s.entries| ==> t.entries[e].child == s.entries[e].child)
  {
    hide Core;
    if !s.nodes[n].detached { DetachShape(s, n); hide Detach; }
  }

  lemma DetachedIsSpent(s: State, n: int)
    requires Core(s) && 0 <= n < |s.nodes| && s.nodes[n].detached
    ensures n in s.spent
  {
  }

  lemma RootHasNoParent(s: State, n: int)
    requires Core(s) && 0 <= n < |s.nodes| && s.nodes[n].up >= 0
    ensures n > 0
  {
    hide Held, Kept, Lane, AllHeld, AllKept, AllLanes, Sealed, SpentTrees;
  }

  lemma EndFacts(s: State, n: int)
    requires CanSettle(s, n)
    ensures var t := End(s, n);
            && |t.nodes| == |s.nodes| && t.entries == s.entries && t.queue == s.queue && t.cursor == s.cursor
            && t.stack == s.stack
            && (forall m ::
              0 <= m < |s.nodes| ==>
                t.nodes[m].up == s.nodes[m].up && t.nodes[m].entry == s.nodes[m].entry
                  && t.nodes[m].requested == s.nodes[m].requested)
            && (forall m ::
              0 <= m < |s.nodes| && m != n && !(Waiting(s, n) && m == s.nodes[n].up) ==> t.nodes[m] == s.nodes[m])
            && t.nodes[n].flight == NoFlight
            && (Waiting(s, n) ==>
              t.nodes[s.nodes[n].up].flight.InFlight?
                && t.nodes[s.nodes[n].up].flight.phase == Joining(s.nodes[n].entry, Some(false)))
  {
    hide DropGone;
  }

  /**
   * A complete report: everything ever acquired in the scope's tree, detached scopes included, has been released,
   * and no setup is pending.
   */
  lemma SettleCore(s: State, n: int)
    requires Core(s) && CanSettle(s, n)
    ensures Linked(End(s, n).nodes, End(s, n).entries) && Core(Settle(s, n))
    ensures NoDebts(End(s, n).nodes, End(s, n).entries, n) ==> n in Settle(s, n).spent && Settle(s, n).nodes[n].detached
  {
    hide NoDebts, Done, Detach, DropGone, Linked, Held, AllHeld, AllKept, AllLanes, Sealed, End, Tell;
    EndCore(s, n);
    EndFacts(s, n);
    FlyingIsRequested(s, n);
    var t := End(s, n);
    if NoDebts(t.nodes, t.entries, n) {
      DetachWithoutDebts(t, n);
      DetachFlights(t, n);
      DetachedIsSpent(Detach(t, n), n);
      if Waiting(s, n) { RootHasNoParent(s, n); HearCore(Detach(t, n), n); }
    }
  }

  /** The parent hears of it: the registration it was releasing is gone. */
  lemma HearCore(s: State, n: int)
    requires Core(s) && 0 < n < |s.nodes| && s.nodes[n].detached
    requires 0 <= s.nodes[n].up < |s.nodes| && s.nodes[s.nodes[n].up].flight.InFlight?
    requires s.nodes[s.nodes[n].up].flight.phase == Joining(s.nodes[n].entry, Some(false))
    ensures Core(Hear(s, s.nodes[n].up))
    ensures n in Hear(s, s.nodes[n].up).spent
    ensures Hear(s, s.nodes[n].up).nodes[n].detached
  {
    hide Core;
    GoneDetached(s, n);
    TellCore(s, s.nodes[n].up, Some(true));
  }
}
