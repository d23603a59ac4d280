/** Each primitive change to a scope tree keeps every registration in exactly one place (scope.ts). */
module ScopeCustody {
  import opened Sequences
  import opened ScopeState

  // ---------- frames ----------

  lemma HeldFrame(es: seq<Entry>, fs: seq<Entry>, n: int, node: Node)
    requires Held(es, n, node)
    requires forall e :: Mine(es, n, e) ==> 0 <= e < |fs| && fs[e] == es[e]
    ensures Held(fs, n, node)
  {
    assert forall i :: 0 <= i < |node.live| ==> Mine(es, n, node.live[i]);
    hide Compact;
    CompactSame(es, fs, node.live);
  }

  // ---------- nothing owed below ----------

  lemma OwnEntries(ns: seq<Node>, es: seq<Entry>, n: int, e: int)
    requires Linked(ns, es) && AllKept(ns, es) && NoDebts(ns, es, n) && Mine(es, n, e)
    ensures es[e].where == Gone || (es[e].child > n && NoDebts(ns, es, es[e].child))
  {
    assert Kept(ns, es, e);
    if es[e].where == Failed { assert NoDebt(ns, es, n, e, Failed); }
    if es[e].where == Active { assert NoDebt(ns, es, n, e, Active); }
    if es[e].where == Live { assert NoDebt(ns, es, n, e, Live); }
  }

  lemma OwnDone(ns: seq<Node>, es: seq<Entry>, n: int)
    requires Linked(ns, es) && AllKept(ns, es) && NoDebts(ns, es, n) && ns[n].requested
    ensures Done(ns, es, n)
  {
    hide NoDebts, Kept, Linked;
    DebtsPending(ns, es, n);
    forall e | Mine(es, n, e) && es[e].child == -1 ensures es[e].where == Gone { OwnEntries(ns, es, n, e); }
  }

  lemma DebtsPending(ns: seq<Node>, es: seq<Entry>, n: int)
    requires NoDebts(ns, es, n)
    ensures 0 <= n < |ns| && ns[n].pending == {}
  {
  }

  /**
   * A requested scope without debts: everything ever acquired in its tree, detached scopes included, has been
   * released.
   */
  lemma {:induction false} TreeDone(s: State, n: int, m: int)
    requires Core(s) && NoDebts(s.nodes, s.entries, n) && s.nodes[n].requested && Under(s.nodes, n, m)
    ensures m in s.spent || (s.nodes[m].requested && NoDebts(s.nodes, s.entries, m))
    ensures Done(s.nodes, s.entries, m)
    decreases m
  {
    hide NoDebts, Held, Kept, Lane, Done;
    if m != n {
      var p := s.nodes[m].up;
      TreeDone(s, n, p);
      if p !in s.spent {
        var e := s.nodes[m].entry;
        OwnEntries(s.nodes, s.entries, p, e);
        assert Kept(s.nodes, s.entries, e);
        if s.entries[e].where == Gone { GoneDetached(s, m); }
      }
    }
    if m !in s.spent { OwnDone(s.nodes, s.entries, m); }
  }

  lemma GoneDetached(s: State, m: int)
    requires Core(s) && 0 < m < |s.nodes|
    ensures 0 <= s.nodes[m].entry < |s.entries|
    ensures s.entries[s.nodes[m].entry].where == Gone <==> s.nodes[m].detached
    ensures s.nodes[m].detached ==> m in s.spent
  {
    assert Mine(s.entries, s.nodes[m].up, s.nodes[m].entry);
    assert Kept(s.nodes, s.entries, s.nodes[m].entry);
  }

  // ---------- detaching ----------

  lemma ForgetHeld(s: State, e: int)
    requires Linked(s.nodes, s.entries) && AllHeld(s.nodes, s.entries)
    requires 0 <= e < |s.entries| && s.entries[e].where != Gone && s.entries[e].child != -1
    requires s.entries[e].where == Live ==> e in s.nodes[s.entries[e].owner].live
    ensures AllHeld(Forget(s, e).nodes, Forget(s, e).entries)
  {
    var t, o := Forget(s, e), s.entries[e].owner;
    forall n | 0 <= n < |t.nodes| ensures Held(t.entries, n, t.nodes[n]) {
      assert Held(s.entries, n, s.nodes[n]);
      if n == o {
        DistinctList(s.entries, o, s.nodes[o].live, Live);
        ForgetOwner(s, e);
      } else {
        HeldFrame(s.entries, t.entries, n, s.nodes[n]);
      }
    }
  }

  lemma ListGone(es: seq<Entry>, n: int, l: seq<int>, w: Where, e: int)
    requires Lists(es, n, l, w) && 0 <= e < |es|
    ensures Lists(es[e := es[e].(where := Gone)], n, l, w)
  {
  }

  lemma ListCompact(es: seq<Entry>, n: int, l: seq<int>, w: Where)
    requires Lists(es, n, l, w)
    ensures Lists(es, n, Compact(es, l), w) && CountGone(es, Compact(es, l)) == 0
  {
    CompactMembers(es, l);
    var c := Compact(es, l);
    hide Compact;
    forall i | 0 <= i < |c| ensures Mine(es, n, c[i]) && es[c[i]].where in {w, Gone} && !IsGone(es, c[i]) {
      assert c[i] in c;
    }
    CompactIdle(es, c);
  }

  lemma ForgetOwner(s: State, e: int)
    requires 0 <= e < |s.entries| && s.entries[e].where != Gone && 0 <= s.entries[e].owner < |s.nodes|
    requires Held(s.entries, s.entries[e].owner, s.nodes[s.entries[e].owner])
    requires s.entries[e].where == Live <==> e in s.nodes[s.entries[e].owner].live
    ensures Held(Forget(s, e).entries, s.entries[e].owner, Forget(s, e).nodes[s.entries[e].owner])
  {
    hide Compact, Lists;
    var o := s.entries[e].owner;
    var node, fs := s.nodes[o], s.entries[e := s.entries[e].(where := Gone)];
    DistinctList(s.entries, o, node.live, Live);
    CountOneGone(s.entries, e, node.live);
    ListGone(s.entries, o, node.live, Live, e);
    ListGone(s.entries, o, node.failed, Failed, e);
    ListCompact(fs, o, node.live, Live);
  }

  lemma DistinctList(es: seq<Entry>, n: int, l: seq<int>, w: Where)
    requires Lists(es, n, l, w)
    ensures Distinct(l) && forall e :: e in l ==> Mine(es, n, e) && es[e].where in {w, Gone}
  {
  }

  ghost predicate SameNode(a: Node, b: Node) {
    && a.up == b.up && a.entry == b.entry && a.pending == b.pending && a.active == b.active && a.failed == b.failed
    && a.requested == b.requested && a.flight == b.flight
  }

  /** Nodes that differ at most in their live list, its tombstones, and whether they have detached. */
  ghost predicate SameNodes(ns: seq<Node>, ms: seq<Node>) {
    |ns| == |ms| && forall m :: 0 <= m < |ns| ==> SameNode(ns[m], ms[m])
  }

  lemma LinkedFrame(ns: seq<Node>, es: seq<Entry>, ms: seq<Node>, fs: seq<Entry>)
    requires Linked(ns, es) && |ms| == |ns| && |fs| == |es|
    requires forall m :: 0 <= m < |ns| ==> ms[m].up == ns[m].up && ms[m].entry == ns[m].entry
    requires forall e :: 0 <= e < |es| ==> fs[e].owner == es[e].owner && fs[e].child == es[e].child
    ensures Linked(ms, fs)
  {
  }

  lemma DetachShape(s: State, n: int)
    requires Core(s) && 0 <= n < |s.nodes| && !s.nodes[n].detached
    ensures var t, e := Detach(s, n), s.nodes[n].entry;
            && SameNodes(s.nodes, t.nodes) && t.nodes[n].detached && t.spent == s.spent + Tree(s.nodes, n)
            && t.queue == s.queue && t.cursor == s.cursor && t.stack == s.stack
            && (forall m :: 0 <= m < |s.nodes| && m != n ==> t.nodes[m].detached == s.nodes[m].detached)
            && (n == 0 ==> t.entries == s.entries)
            && (n > 0 ==>
              0 <= e < |s.entries| && s.entries[e].where != Gone
                && t.entries == s.entries[e := s.entries[e].(where := Gone)])
  {
    hide Core, Linked, Held, Lane, Done, Compact, Sealed, SpentTrees, Kept, AllLanes, AllHeld, Under, Tree;
    CoreLinked(s);
    if n > 0 { GoneDetached(s, n); LinkedChild(s, n); }
  }

  lemma DetachLinked(s: State, n: int)
    requires Core(s) && 0 <= n < |s.nodes| && !s.nodes[n].detached
    ensures Linked(Detach(s, n).nodes, Detach(s, n).entries)
  {
    hide Core, Detach, AllKept;
    DetachShape(s, n);
    CoreLinked(s);
    LinkedFrame(s.nodes, s.entries, Detach(s, n).nodes, Detach(s, n).entries);
  }

  lemma CoreLinked(s: State)
    requires Core(s)
    ensures Linked(s.nodes, s.entries)
  {
  }

  lemma HeldDetached(ns: seq<Node>, es: seq<Entry>, n: int)
    requires AllHeld(ns, es) && 0 <= n < |ns|
    ensures AllHeld(ns[n := ns[n].(detached := true)], es)
  {
    var ms := ns[n := ns[n].(detached := true)];
    forall m | 0 <= m < |ns| ensures Held(es, m, ms[m]) { assert Held(es, m, ns[m]); }
  }

  lemma DetachHeld(s: State, n: int)
    requires Core(s) && 0 <= n < |s.nodes| && !s.nodes[n].detached
    ensures AllHeld(Detach(s, n).nodes, Detach(s, n).entries)
  {
    hide Held, Lane, Done, Compact, Sealed, SpentTrees, Forget;
    HeldDetached(s.nodes, s.entries, n);
    if n > 0 {
      GoneDetached(s, n);
      var t := s.(nodes := s.nodes[n := s.nodes[n].(detached := true)], spent := s.spent + Tree(s.nodes, n));
      LinkedFrame(s.nodes, s.entries, t.nodes, t.entries);
      assert Kept(s.nodes, s.entries, s.nodes[n].entry);
      ForgetHeld(t, s.nodes[n].entry);
    }
  }

  lemma LiveStays(s: State, e: int, x: int)
    requires 0 <= e < |s.entries|
    requires 0 <= s.entries[e].owner < |s.nodes|
    requires 0 <= x < |s.entries|
    requires x != e
    requires s.entries[x].where == Live
    requires 0 <= s.entries[x].owner < |s.nodes| && x in s.nodes[s.entries[x].owner].live
    ensures x in Forget(s, e).nodes[s.entries[x].owner].live
  {
    CompactMembers(s.entries[e := s.entries[e].(where := Gone)], s.nodes[s.entries[e].owner].live);
  }

  lemma DetachKept(s: State, n: int)
    requires Core(s) && 0 <= n < |s.nodes| && !s.nodes[n].detached
    ensures var t := Detach(s, n); Linked(t.nodes, t.entries) && AllKept(t.nodes, t.entries)
  {
    hide Held, Lane, Done, Compact, Sealed, SpentTrees, Forget, AllHeld, AllLanes, Tree;
    var t := Detach(s, n);
    DetachShape(s, n);
    DetachLinked(s, n);
    forall x | 0 <= x < |t.entries| ensures Kept(t.nodes, t.entries, x) {
      assert Kept(s.nodes, s.entries, x);
      if n > 0 && x != s.nodes[n].entry && s.entries[x].where == Live {
        LiveStays(s.(nodes := s.nodes[n := s.nodes[n].(detached := true)], spent := s.spent + Tree(s.nodes, n)),
          s.nodes[n].entry, x);
      }
    }
  }

  /** Losing registrations of child scopes leaves finished scopes finished. */
  lemma DoneFrame(ns: seq<Node>, es: seq<Entry>, ms: seq<Node>, fs: seq<Entry>, m: int)
    requires Done(ns, es, m) && m < |ms| && ms[m].requested && ms[m].pending == {}
    requires forall e :: 0 <= e < |fs| && fs[e].child == -1 && fs[e].owner == m ==> e < |es| && fs[e] == es[e]
    ensures Done(ms, fs, m)
  {
    forall e | Mine(fs, m, e) && fs[e].child == -1 ensures fs[e].where == Gone { assert Mine(es, m, e); }
  }

  lemma LaneFrame(ns: seq<Node>, es: seq<Entry>, ms: seq<Node>, fs: seq<Entry>, node: Node)
    requires Lane(ns, es, node) && |ms| >= |ns| && |fs| >= |es|
    requires forall m :: 0 <= m < |ns| ==> (ns[m].flight.InFlight? ==> ms[m].flight.InFlight?)
    requires forall e :: 0 <= e < |es| ==> fs[e].child == es[e].child
                                           && (fs[e].where == es[e].where || (es[e].child != -1 && fs[e].where == Gone))
    ensures Lane(ms, fs, node)
  {
  }

  lemma DetachLanes(s: State, n: int)
    requires Core(s) && 0 <= n < |s.nodes| && !s.nodes[n].detached
    ensures AllLanes(Detach(s, n).nodes, Detach(s, n).entries)
  {
    hide Held, Detach, Compact, Kept, AllKept, Lane, Sealed, SpentTrees, AllHeld;
    var t := Detach(s, n);
    DetachShape(s, n);
    if n > 0 { LinkedChild(s, n); }
    forall m | 0 <= m < |t.nodes| ensures Lane(t.nodes, t.entries, t.nodes[m]) {
      assert Lane(s.nodes, s.entries, s.nodes[m]);
      LaneFrame(s.nodes, s.entries, t.nodes, t.entries, s.nodes[m]);
      SameLane(t.nodes, t.entries, s.nodes[m], t.nodes[m]);
    }
  }

  lemma LinkedChild(s: State, n: int)
    requires Linked(s.nodes, s.entries) && 0 < n < |s.nodes|
    ensures 0 <= s.nodes[n].entry < |s.entries| && s.entries[s.nodes[n].entry].child == n && 0 <= s.nodes[n].up < n
    ensures s.entries[s.nodes[n].entry].owner == s.nodes[n].up
  {
    assert Mine(s.entries, s.nodes[n].up, s.nodes[n].entry);
  }

  lemma SameLane(ns: seq<Node>, es: seq<Entry>, a: Node, b: Node)
    requires Lane(ns, es, a) && a.flight == b.flight
    ensures Lane(ns, es, b)
  {
  }

  lemma SealedFrame(ns: seq<Node>, ms: seq<Node>)
    requires Sealed(ns) && |ns| == |ms|
    requires forall m :: 0 <= m < |ns| ==> ms[m].up == ns[m].up && ms[m].requested == ns[m].requested
    ensures Sealed(ms)
  {
  }

  lemma SpentFrame(ns: seq<Node>, es: seq<Entry>, spent: set<int>, n: int, ms: seq<Node>, fs: seq<Entry>)
    requires SpentTrees(ns, es, spent) && 0 <= n < |ns| && |ns| == |ms| && |es| == |fs| && Linked(ns, es)
    requires forall m :: m in Tree(ns, n) ==> Done(ns, es, m)
    requires forall m ::
      0 <= m < |ns| ==> ms[m].up == ns[m].up && ms[m].requested == ns[m].requested && ms[m].pending == ns[m].pending
    requires forall m :: 0 <= m < |ns| && m != n ==> ms[m].detached == ns[m].detached
    requires forall e ::
      0 <= e < |es| ==>
        fs[e].child == es[e].child && fs[e].owner == es[e].owner && (fs[e].child == -1 ==> fs[e] == es[e])
    ensures SpentTrees(ms, fs, spent + Tree(ns, n))
  {
    hide Done;
    forall m | m in spent + Tree(ns, n) ensures Done(ms, fs, m) {
      DoneKnown(ns, es, m);
      DoneFrame(ns, es, ms, fs, m);
    }
  }

  lemma DetachSpent(s: State, n: int)
    requires Core(s) && 0 <= n < |s.nodes| && !s.nodes[n].detached
    requires forall m :: m in Tree(s.nodes, n) ==> Done(s.nodes, s.entries, m)
    ensures var t := Detach(s, n); Sealed(t.nodes) && SpentTrees(t.nodes, t.entries, t.spent)
  {
    hide Held, Detach, Compact, Kept, AllKept, Lane, AllLanes, AllHeld, Done, Linked, Sealed, SpentTrees, Tree;
    var t := Detach(s, n);
    DetachShape(s, n);
    if n > 0 { LinkedChild(s, n); }
    SealedFrame(s.nodes, t.nodes);
    SpentFrame(s.nodes, s.entries, s.spent, n, t.nodes, t.entries);
  }

  lemma DoneKnown(ns: seq<Node>, es: seq<Entry>, m: int)
    requires Done(ns, es, m)
    ensures 0 <= m < |ns| && ns[m].requested && ns[m].pending == {}
  {
  }

  lemma DetachCore(s: State, n: int)
    requires Core(s) && 0 <= n < |s.nodes|
    requires forall m :: m in Tree(s.nodes, n) ==> Done(s.nodes, s.entries, m)
    ensures Core(Detach(s, n))
  {
    if !s.nodes[n].detached {
      DetachLinked(s, n);
      DetachKept(s, n);
      DetachHeld(s, n);
      DetachLanes(s, n);
      DetachSpent(s, n);
    }
    hide AllHeld, AllKept, AllLanes, Sealed, SpentTrees, Linked, Forget, Detach;
  }

  // ---------- a change within one scope ----------

  ghost predicate Listed(node: Node, entry: Entry, e: int) {
    && (entry.where == Live ==> e in node.live)
    && (entry.where == Failed ==> e in node.failed)
    && (entry.where == Active ==> e in node.active)
  }

  ghost predicate Awaits(node: Node, e: int) {
    node.flight.InFlight? && node.flight.phase == Joining(e, None)
  }

  /**
   * The registrations of scope n may change and be added to; released ones stay released, child scopes attach and
   * detach elsewhere.
   */
  ghost predicate OwnChange(s: State, n: int, fs: seq<Entry>) {
    && |fs| >= |s.entries|
    && (forall e :: 0 <= e < |s.entries| ==>
          && fs[e].owner == s.entries[e].owner && fs[e].child == s.entries[e].child
          && (fs[e].owner != n ==> fs[e] == s.entries[e])
          && (s.entries[e].where == Gone ==> fs[e].where == Gone)
          && (fs[e].child != -1 && fs[e].where == Gone ==> s.entries[e].where == Gone))
    && (forall e :: |s.entries| <= e < |fs| ==> fs[e] == Entry(n, -1, Live))
    && (n in s.spent ==> |fs| == |s.entries|)
  }

  ghost predicate NodeChange(s: State, n: int, node: Node)
    requires 0 <= n < |s.nodes|
  {
    var was := s.nodes[n];
    && node.up == was.up && node.entry == was.entry && node.detached == was.detached && node.requested == was.requested
    && (n in s.spent ==> node.pending == {})
    && (node.flight.NoFlight? && was.flight.InFlight? ==> forall m ::
      0 <= m < |s.nodes| ==> !Awaits(s.nodes[m], was.entry))
  }

  ghost function Changed(s: State, n: int, node: Node, fs: seq<Entry>): State
    requires 0 <= n < |s.nodes|
  {
    s.(nodes := s.nodes[n := node], entries := fs)
  }

  lemma LocalLinked(s: State, n: int, node: Node, fs: seq<Entry>)
    requires Linked(s.nodes, s.entries) && 0 <= n < |s.nodes| && OwnChange(s, n, fs) && NodeChange(s, n, node)
    ensures Linked(s.nodes[n := node], fs)
  {
  }

  lemma LocalHeld(s: State, n: int, node: Node, fs: seq<Entry>)
    requires AllHeld(s.nodes, s.entries) && 0 <= n < |s.nodes| && OwnChange(s, n, fs) && Held(fs, n, node)
    ensures AllHeld(s.nodes[n := node], fs)
  {
    var ms := s.nodes[n := node];
    hide Held;
    forall m | 0 <= m < |ms| ensures Held(fs, m, ms[m]) {
      if m != n {
        assert Held(s.entries, m, s.nodes[m]);
        HeldFrame(s.entries, fs, m, s.nodes[m]);
      }
    }
  }

  lemma LocalKept(s: State, n: int, node: Node, fs: seq<Entry>)
    requires Linked(s.nodes, s.entries)
    requires AllKept(s.nodes, s.entries)
    requires 0 <= n < |s.nodes|
    requires OwnChange(s, n, fs)
    requires NodeChange(s, n, node)
    requires Linked(s.nodes[n := node], fs)
    requires forall e :: Mine(fs, n, e) ==> Listed(node, fs[e], e)
    ensures AllKept(s.nodes[n := node], fs)
  {
    var ms := s.nodes[n := node];
    forall x | 0 <= x < |fs| ensures Kept(ms, fs, x) {
      if x < |s.entries| { assert Kept(s.nodes, s.entries, x); }
      assert fs[x].owner == n ==> Mine(fs, n, x);
    }
  }

  lemma LocalLane(s: State, n: int, node: Node, fs: seq<Entry>, m: int)
    requires Linked(s.nodes, s.entries) && 0 <= n < |s.nodes| && OwnChange(s, n, fs) && NodeChange(s, n, node)
    requires 0 <= m < |s.nodes| && m != n && Held(s.entries, m, s.nodes[m]) && Lane(s.nodes, s.entries, s.nodes[m])
    ensures Lane(s.nodes[n := node], fs, s.nodes[m])
  {
    hide Compact, Lists;
    if s.nodes[m].flight.InFlight? && s.nodes[m].flight.phase.Joining? {
      var e := s.nodes[m].flight.phase.entry;
      assert e in s.nodes[m].active;
      if s.nodes[m].flight.phase.outcome == None && s.entries[e].child == n { assert Awaits(s.nodes[m], e); }
    }
    if s.nodes[m].flight.InFlight? && s.nodes[m].flight.phase.Releasing? {
      assert s.nodes[m].flight.phase.entry in s.nodes[m].active;
    }
  }

  lemma LocalLanes(s: State, n: int, node: Node, fs: seq<Entry>)
    requires Linked(s.nodes, s.entries) && 0 <= n < |s.nodes| && OwnChange(s, n, fs) && NodeChange(s, n, node)
    requires AllHeld(s.nodes, s.entries) && AllLanes(s.nodes, s.entries) && Lane(s.nodes[n := node], fs, node)
    ensures AllLanes(s.nodes[n := node], fs)
  {
    var ms := s.nodes[n := node];
    hide Held, Lane, Linked, OwnChange, NodeChange;
    forall m | 0 <= m < |ms| ensures Lane(ms, fs, ms[m]) {
      if m != n {
        assert Held(s.entries, m, s.nodes[m]) && Lane(s.nodes, s.entries, s.nodes[m]);
        LocalLane(s, n, node, fs, m);
      }
    }
  }

  lemma LocalSpent(s: State, n: int, node: Node, fs: seq<Entry>)
    requires SpentTrees(s.nodes, s.entries, s.spent)
    requires Sealed(s.nodes)
    requires 0 <= n < |s.nodes|
    requires OwnChange(s, n, fs)
    requires NodeChange(s, n, node)
    ensures SpentTrees(s.nodes[n := node], fs, s.spent) && Sealed(s.nodes[n := node])
  {
    var ms := s.nodes[n := node];
    forall m | m in s.spent ensures Done(ms, fs, m) {
      assert Done(s.nodes, s.entries, m);
      forall e | Mine(fs, m, e) && fs[e].child == -1 ensures fs[e].where == Gone {
        if e < |s.entries| { assert Mine(s.entries, m, e); }
      }
    }
  }

  lemma LocalCore(s: State, n: int, node: Node, fs: seq<Entry>)
    requires Core(s) && 0 <= n < |s.nodes| && OwnChange(s, n, fs) && NodeChange(s, n, node)
    requires Held(fs, n, node) && Lane(s.nodes[n := node], fs, node)
    requires forall e :: Mine(fs, n, e) ==> Listed(node, fs[e], e)
    ensures Core(Changed(s, n, node, fs))
  {
    hide Held, Lane, AllHeld, AllKept, AllLanes, Linked, Sealed, SpentTrees, OwnChange, NodeChange;
    LocalLinked(s, n, node, fs);
    LocalHeld(s, n, node, fs);
    LocalKept(s, n, node, fs);
    LocalLanes(s, n, node, fs);
    LocalSpent(s, n, node, fs);
  }
}
