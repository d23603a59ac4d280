/** The operations on one scope keep the tree's custody (scope.ts). */
module ScopeSteps {
  import opened Sequences
  import opened ScopeState
  import opened ScopeCustody

  // ---------- sealing ----------

  lemma {:induction false} VisitedReaches(s: State, n: int, m: int)
    requires Core(s) && 0 <= n < |s.nodes| && Under(s.nodes, n, m)
    ensures Request(s, n).nodes[m].requested
    decreases m
  {
    hide Held, Kept, Lane, AllHeld, AllKept, AllLanes;
    if m != n {
      var p := s.nodes[m].up;
      VisitedReaches(s, n, p);
      if !s.nodes[p].requested && s.nodes[m].detached {
        assert Done(s.nodes, s.entries, m);
      }
    }
  }

  lemma RequestCore(s: State, n: int)
    requires Core(s) && 0 <= n < |s.nodes|
    ensures Core(Request(s, n))
    ensures forall m :: Under(s.nodes, n, m) ==> Request(s, n).nodes[m].requested
  {
    hide Held, Kept, Lane, AllHeld, AllKept, AllLanes, Sealed, SpentTrees, Visited, Core;
    var t := Request(s, n);
    forall m | Under(s.nodes, n, m) ensures t.nodes[m].requested { VisitedReaches(s, n, m); }
    RequestParts(s, n);
    RequestSealed(s, n);
    Assemble(t);
  }

  lemma Assemble(s: State)
    requires Linked(s.nodes, s.entries)
    requires AllHeld(s.nodes, s.entries)
    requires AllKept(s.nodes, s.entries)
    requires AllLanes(s.nodes, s.entries)
    requires Sealed(s.nodes) && SpentTrees(s.nodes, s.entries, s.spent)
    ensures Core(s)
  {
  }

  lemma RequestParts(s: State, n: int)
    requires Core(s) && 0 <= n < |s.nodes|
    ensures var t := Request(s, n);
            Linked(t.nodes, t.entries) && AllHeld(t.nodes, t.entries) && AllKept(t.nodes, t.entries)
              && AllLanes(t.nodes, t.entries)
  {
    hide Visited, Compact, Lists, Sealed, SpentTrees;
    var t := Request(s, n);
    LinkedFrame(s.nodes, s.entries, t.nodes, t.entries);
    forall m | 0 <= m < |t.nodes| ensures Held(t.entries, m, t.nodes[m]) { assert Held(s.entries, m, s.nodes[m]); }
    forall m | 0 <= m < |t.nodes| ensures Lane(t.nodes, t.entries, t.nodes[m]) {
      assert Lane(s.nodes, s.entries, s.nodes[m]);
    }
    forall e | 0 <= e < |t.entries| ensures Kept(t.nodes, t.entries, e) { assert Kept(s.nodes, s.entries, e); }
  }

  lemma RequestSealed(s: State, n: int)
    requires Core(s) && 0 <= n < |s.nodes|
    ensures var t := Request(s, n); Sealed(t.nodes) && SpentTrees(t.nodes, t.entries, t.spent)
  {
    hide Held, Kept, Lane, AllHeld, AllKept, AllLanes, Linked;
    var t := Request(s, n);
    forall m | m in s.spent ensures Done(t.nodes, t.entries, m) {
      assert Done(s.nodes, s.entries, m);
      forall e | Mine(t.entries, m, e) && t.entries[e].child == -1 ensures t.entries[e].where == Gone {
        assert Mine(s.entries, m, e);
      }
    }
    forall m | 0 < m < |t.nodes| && 0 <= t.nodes[m].up < |t.nodes| && t.nodes[t.nodes[m].up].requested
      ensures t.nodes[m].requested {
      var p := s.nodes[m].up;
      if !s.nodes[p].requested {
        if s.nodes[m].detached { assert Done(s.nodes, s.entries, m); }
        UpIsSmaller(s, m);
      }
    }
  }

  lemma UpIsSmaller(s: State, m: int)
    requires Core(s) && 0 < m < |s.nodes|
    ensures 0 <= s.nodes[m].up < m
  {
  }

  // ---------- registering ----------

  /** A resource enters custody; `setup` is the pending setup that acquired it, if any. */
  ghost function Acquire(s: State, n: int, setup: set<int>): State
    requires 0 <= n < |s.nodes|
  {
    var node := s.nodes[n];
    Changed(s, n, node.(pending := node.pending - setup, live := node.live + [|s.entries|]),
      s.entries + [Entry(n, -1, Live)])
  }

  lemma ListPush(es: seq<Entry>, n: int, l: seq<int>, x: Entry)
    requires Lists(es, n, l, Live) && x.owner == n && x.where == Live
    ensures Lists(es + [x], n, l + [|es|], Live) && CountGone(es + [x], l + [|es|]) == CountGone(es, l)
  {
    var fs := es + [x];
    assert (l + [|es|])[..|l|] == l;
    assert forall i :: 0 <= i < |l| ==> Mine(es, n, l[i]);
    CompactSame(es, fs, l);
  }

  lemma ListGrow(es: seq<Entry>, n: int, l: seq<int>, w: Where, x: Entry)
    requires Lists(es, n, l, w)
    ensures Lists(es + [x], n, l, w)
  {
  }

  lemma AcquireCore(s: State, n: int, setup: set<int>)
    requires Core(s) && 0 <= n < |s.nodes| && n !in s.spent
    ensures Core(Acquire(s, n, setup))
  {
    hide Lists, Compact, Sealed, SpentTrees, Linked, AllKept, Kept;
    var node, t, x := s.nodes[n], Acquire(s, n, setup), Entry(n, -1, Live);
    assert Held(s.entries, n, node) && Lane(s.nodes, s.entries, node);
    ListPush(s.entries, n, node.live, x);
    ListGrow(s.entries, n, node.failed, Failed, x);
    AcquireListed(s, n, setup);
    AcquireLane(s, n, setup);
    LocalCore(s, n, t.nodes[n], t.entries);
  }

  lemma AcquireLane(s: State, n: int, setup: set<int>)
    requires 0 <= n < |s.nodes| && Lane(s.nodes, s.entries, s.nodes[n])
    ensures Lane(Acquire(s, n, setup).nodes, Acquire(s, n, setup).entries, Acquire(s, n, setup).nodes[n])
  {
  }

  lemma AcquireListed(s: State, n: int, setup: set<int>)
    requires Core(s) && 0 <= n < |s.nodes|
    ensures var t := Acquire(s, n, setup); forall e :: Mine(t.entries, n, e) ==> Listed(t.nodes[n], t.entries[e], e)
  {
    hide Held, Lane, AllHeld, AllLanes, Sealed, SpentTrees;
    var t := Acquire(s, n, setup);
    forall e | Mine(t.entries, n, e) ensures Listed(t.nodes[n], t.entries[e], e) {
      if e < |s.entries| { assert Kept(s.nodes, s.entries, e); }
      else { assert t.nodes[n].live[|s.nodes[n].live|] == e; }
    }
  }

  /** Setups are announced before they run, and end by failing or by acquiring. */
  ghost function Pend(s: State, n: int, pending: set<int>): State
    requires 0 <= n < |s.nodes|
  {
    Changed(s, n, s.nodes[n].(pending := pending), s.entries)
  }

  lemma PendCore(s: State, n: int, pending: set<int>)
    requires Core(s) && 0 <= n < |s.nodes| && (n in s.spent ==> pending == {})
    ensures Core(Pend(s, n, pending))
  {
    hide Lists, Compact, Sealed, SpentTrees, Linked;
    assert Held(s.entries, n, s.nodes[n]) && Lane(s.nodes, s.entries, s.nodes[n]);
    forall e | Mine(s.entries, n, e) ensures Listed(s.nodes[n], s.entries[e], e) { assert Kept(s.nodes, s.entries, e); }
    LocalCore(s, n, s.nodes[n].(pending := pending), s.entries);
  }

  lemma NotSpent(s: State, n: int)
    requires Core(s) && 0 <= n < |s.nodes| && (!s.nodes[n].requested || s.nodes[n].pending != {})
    ensures n !in s.spent
  {
    hide Held, Kept, Lane, AllHeld, AllKept, AllLanes, Linked, Sealed;
    assert n in s.spent ==> Done(s.nodes, s.entries, n);
  }

  /** A child scope, pushed on its parent's list like any registration. */
  ghost function Adopt(s: State, n: int): State
    requires 0 <= n < |s.nodes|
  {
    var node, e, m := s.nodes[n], |s.entries|, |s.nodes|;
    s.(nodes := s.nodes[n := node.(live := node.live + [e])] + [Node(n, e, {}, {}, [], 0, [], false, false, NoFlight)],
       entries := s.entries + [Entry(n, m, Live)])
  }

  lemma AdoptHeld(s: State, n: int)
    requires Core(s) && 0 <= n < |s.nodes|
    ensures AllHeld(Adopt(s, n).nodes, Adopt(s, n).entries)
  {
    hide Lists, Compact, Linked, AllKept, AllLanes, Sealed, SpentTrees;
    var t, x := Adopt(s, n), Entry(n, |s.nodes|, Live);
    forall m | 0 <= m < |t.nodes| ensures Held(t.entries, m, t.nodes[m]) {
      if m < |s.nodes| {
        assert Held(s.entries, m, s.nodes[m]);
        HeldFrame(s.entries, t.entries, m, s.nodes[m]);
        if m == n {
          ListPush(s.entries, n, s.nodes[n].live, x);
          ListGrow(s.entries, n, s.nodes[n].failed, Failed, x);
        }
      } else {
        EmptyLists(t.entries, m);
      }
    }
  }

  lemma EmptyLists(es: seq<Entry>, n: int)
    ensures Lists(es, n, [], Live) && Lists(es, n, [], Failed) && CountGone(es, []) == 0
  {
  }

  lemma AdoptRest(s: State, n: int)
    requires Core(s) && 0 <= n < |s.nodes| && !s.nodes[n].requested
    ensures var t := Adopt(s, n);
            && Linked(t.nodes, t.entries) && AllKept(t.nodes, t.entries) && AllLanes(t.nodes, t.entries)
  {
    hide Held, Sealed, SpentTrees;
    var t := Adopt(s, n);
    AdoptLinked(s, n);
    forall e | 0 <= e < |t.entries| ensures Kept(t.nodes, t.entries, e) {
      if e < |s.entries| {
        assert Kept(s.nodes, s.entries, e);
      } else {
        assert t.nodes[n].live[|s.nodes[n].live|] == e;
      }
    }
    forall m | 0 <= m < |t.nodes| ensures Lane(t.nodes, t.entries, t.nodes[m]) {
      if m < |s.nodes| {
        assert Lane(s.nodes, s.entries, s.nodes[m]);
        LaneFrame(s.nodes, s.entries, t.nodes, t.entries, s.nodes[m]);
        SameLane(t.nodes, t.entries, s.nodes[m], t.nodes[m]);
      }
    }
  }

  lemma AdoptLinked(s: State, n: int)
    requires Core(s) && 0 <= n < |s.nodes|
    ensures Linked(Adopt(s, n).nodes, Adopt(s, n).entries)
  {
    hide Held, Kept, Lane, AllHeld, AllKept, AllLanes, Sealed, SpentTrees;
  }

  lemma AdoptSpent(s: State, n: int)
    requires Core(s) && 0 <= n < |s.nodes| && !s.nodes[n].requested
    ensures var t := Adopt(s, n); Sealed(t.nodes) && SpentTrees(t.nodes, t.entries, t.spent)
  {
    hide Held, Kept, Lane, AllHeld, AllKept, AllLanes, Linked;
    var t := Adopt(s, n);
    NotSpent(s, n);
    forall m | m in t.spent ensures Done(t.nodes, t.entries, m) {
      assert Done(s.nodes, s.entries, m);
      forall e | Mine(t.entries, m, e) && t.entries[e].child == -1 ensures t.entries[e].where == Gone {
        assert Mine(s.entries, m, e);
      }
    }
  }

  lemma AdoptCore(s: State, n: int)
    requires Core(s) && 0 <= n < |s.nodes| && !s.nodes[n].requested
    ensures Core(Adopt(s, n))
  {
    hide *;
    AdoptHeld(s, n);
    AdoptRest(s, n);
    AdoptSpent(s, n);
    Assemble(Adopt(s, n));
  }

  // ---------- a flight ----------

  ghost function Fly(s: State, n: int, flight: Flight): State
    requires 0 <= n < |s.nodes|
  {
    Changed(s, n, s.nodes[n].(flight := flight), s.entries)
  }

  /** A flight may move between its phases, begin on a requested scope, or end when nobody waits for it. */
  lemma FlyCore(s: State, n: int, flight: Flight)
    requires Core(s) && 0 <= n < |s.nodes|
    requires Busy(flight) == Busy(s.nodes[n].flight)
    requires flight.InFlight? ==>
      s.nodes[n].requested
        && flight.attempted <= (if s.nodes[n].flight.InFlight? then s.nodes[n].flight.attempted else {})
    requires Lane(s.nodes[n := s.nodes[n].(flight := flight)], s.entries, s.nodes[n].(flight := flight))
    requires flight.NoFlight? && s.nodes[n].flight.InFlight? ==> forall m ::
      0 <= m < |s.nodes| ==> !Awaits(s.nodes[m], s.nodes[n].entry)
    ensures Core(Fly(s, n, flight))
  {
    hide Lists, Compact, Sealed, Linked, Lane;
    assert Held(s.entries, n, s.nodes[n]);
    forall e | Mine(s.entries, n, e) ensures Listed(s.nodes[n], s.entries[e], e) { assert Kept(s.nodes, s.entries, e); }
    assert n in s.spent ==> Done(s.nodes, s.entries, n);
    LocalCore(s, n, s.nodes[n].(flight := flight), s.entries);
  }

  lemma {:induction false} RetryMembers(es: seq<Entry>, n: int, failed: seq<int>)
    requires Lists(es, n, failed, Failed)
    ensures forall e :: e in Retry(es, failed) <==> e in failed && es[e].where == Failed
    ensures Distinct(Retry(es, failed))
  {
    if failed != [] {
      var front, last := failed[..|failed| - 1], failed[|failed| - 1];
      RetryMembers(es, n, front);
      assert failed == front + [last];
      assert last !in front;
    }
  }

  lemma ReopenLists(s: State, n: int)
    requires 0 <= n < |s.nodes| && Held(s.entries, n, s.nodes[n]) && s.nodes[n].flight == NoFlight
    ensures Held(Reopen(s, n).entries, n, Reopen(s, n).nodes[n])
  {
    hide Compact;
    var t, node := Reopen(s, n), s.nodes[n];
    var back := Retry(s.entries, node.failed);
    RetryMembers(s.entries, n, node.failed);
    hide Retry;
    forall i | 0 <= i < |back| ensures Mine(s.entries, n, back[i]) && s.entries[back[i]].where == Failed {
      assert back[i] in back;
    }
    CompactSame(s.entries, t.entries, node.live);
    CompactAppend(t.entries, node.live, back);
    CompactIdle(t.entries, back);
  }

  lemma ReopenListed(s: State, n: int)
    requires Core(s) && 0 <= n < |s.nodes|
    ensures var t := Reopen(s, n); forall e :: Mine(t.entries, n, e) ==> Listed(t.nodes[n], t.entries[e], e)
  {
    hide Compact, Lane, Sealed, SpentTrees, AllLanes;
    assert Held(s.entries, n, s.nodes[n]);
    RetryMembers(s.entries, n, s.nodes[n].failed);
    hide Held, Retry, AllHeld, Lists;
    var t := Reopen(s, n);
    forall e | Mine(t.entries, n, e) ensures Listed(t.nodes[n], t.entries[e], e) { assert Kept(s.nodes, s.entries, e); }
  }

  lemma ReopenCore(s: State, n: int)
    requires Core(s) && 0 <= n < |s.nodes| && s.nodes[n].flight == NoFlight
    ensures Core(Reopen(s, n))
    ensures Reopen(s, n).nodes[n].failed == [] && Reopen(s, n).nodes[n].flight == NoFlight
  {
    hide Lists, Compact, Retry, Sealed, AllLanes;
    assert Held(s.entries, n, s.nodes[n]);
    ReopenLists(s, n);
    ReopenListed(s, n);
    ReopenChange(s, n);
    hide Held, AllHeld, AllKept, Linked, OwnChange, SpentTrees;
    var t := Reopen(s, n);
    LocalCore(s, n, t.nodes[n], t.entries);
  }

  lemma ReopenChange(s: State, n: int)
    requires Core(s) && 0 <= n < |s.nodes|
    ensures OwnChange(s, n, Reopen(s, n).entries) && (n in s.spent ==> s.nodes[n].pending == {})
  {
    hide Compact, Retry, Sealed, AllLanes, AllKept;
    assert Held(s.entries, n, s.nodes[n]);
    assert n in s.spent ==> Done(s.nodes, s.entries, n);
    assert forall e :: e in s.nodes[n].failed ==> Mine(s.entries, n, e);
  }
}
