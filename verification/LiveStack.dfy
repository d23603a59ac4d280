/** One scope's list of live registrations, changed in place: pushing, popping, forgetting, compacting (scope.ts). */
module LiveStack {
  import opened Sequences
  import opened ScopeState
  import opened ScopeCustody
  import opened ScopeSteps
  import opened ScopeFlights

  class LiveStack {
    var live: seq<int>
    var tombstones: int

    /** What the entries have become is kept by the tree; the stack counts how many of its own are gone. */
    ghost predicate Counts(es: seq<Entry>)
      reads this
    {
      Distinct(live) && tombstones == CountGone(es, live)
    }

    /** The stack is the list of the scope n. */
    ghost predicate StandsFor(s: State, n: int)
      reads this
    {
      0 <= n < |s.nodes| && live == s.nodes[n].live && tombstones == s.nodes[n].tombstones && Counts(s.entries)
    }

    constructor ()
      ensures live == [] && tombstones == 0
    {
      live, tombstones := [], 0;
    }

    /** A new registration of the scope, as the tree registers it. */
    method Push(e: int, ghost s: State, ghost n: int, ghost setup: set<int>)
      requires StandsFor(s, n) && e == |s.entries| && (forall x :: x in live ==> 0 <= x < |s.entries|)
      modifies this
      ensures StandsFor(Acquire(s, n, setup), n) && live == old(live) + [e]
      ensures Compact(s.entries, live) == Compact(s.entries, old(live)) + [e]
    {
      hide Compact;
      ghost var fs := s.entries + [Entry(n, -1, Live)];
      NoneNewGone(s.entries, Entry(n, -1, Live));
      PushedCompact(s.entries, live, e);
      PushedCompact(fs, live, e);
      CompactSame(s.entries, fs, live);
      assert forall i :: 0 <= i < |live| ==> live[i] in live;
      live := live + [e];
    }

    /** The last registration that is not gone, and what is left below it. */
    method Pop(es: seq<Entry>) returns (popped: Option<int>)
      requires Counts(es)
      modifies this
      ensures Counts(es)
      ensures popped.None? <==> Compact(es, old(live)) == []
      ensures popped.Some? ==> popped.value in old(live) && Compact(es, old(live)) == Compact(es, live) + [popped.value]
      ensures popped.None? ==> live == [] && tombstones == 0 && DropGone(es, old(live)) == []
      ensures popped.Some? ==>
        DropGone(es, old(live)) == live + [popped.value] && tombstones == old(tombstones) - (|old(live)| - |live| - 1)
    {
      ghost var all, counted := live, tombstones;
      while true
        invariant Counts(es)
        invariant live <= all
        invariant Compact(es, live) == Compact(es, all)
        invariant DropGone(es, live) == DropGone(es, all)
        invariant tombstones == counted - (|all| - |live|)
        decreases |live|
      {
        if live == [] { return None; }
        var entry := live[|live| - 1];
        live := live[..|live| - 1];
        if !(0 <= entry < |es| && es[entry].where == Gone) { return Some(entry); }
        tombstones := tombstones - 1;
      }
    }

    /** The loop of a flight pops what the flight attempts next, or finds nothing left and settles. */
    method PopNext(ghost s: State, n: int, es: seq<Entry>) returns (popped: Option<int>)
      requires StandsFor(s, n) && es == s.entries && Core(s) && InPhase(s.nodes, n, Running) && s.nodes[n].pending == {}
      modifies this
      ensures popped.Some? <==> CanAttempt(s, n)
      ensures popped.Some? ==> popped.value == Top(s, n) && 0 <= Top(s, n) < |s.entries| && StandsFor(Attempt(s, n), n)
      ensures popped.None? ==> CanSettle(s, n) && live == []
    {
      hide Core, Compact, DropGone, Lists;
      popped := Pop(es);
      if popped.Some? {
        TopIsHeld(s, n);
        CompactSame(s.entries, s.entries[popped.value := s.entries[popped.value].(where := Active)], live);
      }
    }

    /**
     * A registration is gone: its place stays as a tombstone, until the tombstones are more than half of a long
     * list.
     */
    method Forget(e: int, ghost s: State, es: seq<Entry>)
      requires 0 <= e < |s.entries| && s.entries[e].where == Live && e in live && StandsFor(s, s.entries[e].owner)
      requires es == s.entries[e := s.entries[e].(where := Gone)]
      modifies this
      ensures StandsFor(ScopeState.Forget(s, e), s.entries[e].owner)
      ensures Compact(es, live) == Compact(es, old(live)) && (tombstones <= COMPACT_AT || tombstones * 2 <= |live|)
    {
      CountOneGone(s.entries, e, live);
      tombstones := tombstones + 1;
      if tombstones > COMPACT_AT && tombstones * 2 > |live| {
        CompactTwice(es, live);
        CompactMembers(es, live);
        live := Filter(es, live);
        tombstones := 0;
      }
    }
  }

  lemma PushedCompact(es: seq<Entry>, live: seq<int>, e: int)
    requires !IsGone(es, e)
    ensures Compact(es, live + [e]) == Compact(es, live) + [e]
  {
    assert (live + [e])[..|live|] == live;
  }

  lemma NoneNewGone(es: seq<Entry>, x: Entry)
    requires x.where == Live
    ensures forall e :: IsGone(es, e) <==> IsGone(es + [x], e)
  {
  }

  method Filter(es: seq<Entry>, live: seq<int>) returns (r: seq<int>)
    ensures r == Compact(es, live)
  {
    r := [];
    for i := 0 to |live|
      invariant r == Compact(es, live[..i])
    {
      assert live[..i + 1][..i] == live[..i];
      if !(0 <= live[i] < |es| && es[live[i]].where == Gone) { r := r + [live[i]]; }
    }
    assert live[..|live|] == live;
  }
}
