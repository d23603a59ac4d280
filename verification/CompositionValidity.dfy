/** A composition is reported on exactly when it is not valid (semantic-analysis.ts). */
module CompositionValidity {
  import opened Sequences
  import opened Text
  import opened Composition
  import opened Candidates
  import opened DeclarationCensus
  import opened ProfileCensus
  import opened SelectedBindings
  import opened GraphResources
  import opened SemanticAnalysis
  import G = SelectedGraph

  // ---------- what a valid composition is ----------

  ghost predicate Declares(ds: seq<Declaration>, id: Id) {
    exists d :: d in ds && d.implementationId == id
  }

  /** Every implementation is declared once, and declares each capability and each slot once. */
  ghost predicate DeclaredOnce(ds: seq<Declaration>) {
    && Distinct(IdsOf(ds, ImplementationOf))
    && forall d :: d in ds ==> Distinct(IdsOf(d.capabilities, CapabilityIdOf)) && Distinct(IdsOf(d.slots, SlotIdOf))
  }

  /** Each module is selected at most once, for an implementation declared for it. */
  ghost predicate SelectionsValid(ds: seq<Declaration>, p: Profile) {
    && Distinct(IdsOf(p.selections, SelectedModule))
    && forall s ::
      s in p.selections ==> exists d :: d in ds && d.implementationId == s.implementationId && d.moduleId == s.moduleId
  }

  ghost predicate SelectsModule(p: Profile, m: Id) {
    exists s :: s in p.selections && s.moduleId == m
  }

  ghost predicate RootsValid(p: Profile) {
    Distinct(p.roots) && forall m :: m in p.roots ==> SelectsModule(p, m)
  }

  /** The provider of a row is selected and declares the slot's capability with the slot's token. */
  ghost predicate Provides(ds: seq<Declaration>, p: Profile, slot: Slot, provider: Id) {
    && IsSelected(p, provider)
    && exists d, c ::
      d in ds && d.implementationId == provider && c in d.capabilities && c.capabilityId == slot.capabilityId
        && c.token == slot.token
  }

  /** A row is for a slot its consumer declares, with as many different providers as the slot asks for. */
  ghost predicate RowCorrect(ds: seq<Declaration>, p: Profile, b: Binding) {
    exists d, slot :: d in ds && d.implementationId == b.consumer && slot in d.slots && slot.slotId == b.slotId
                      && Allowed(slot.bounds, |b.providers|) && Distinct(b.providers)
                      && forall q :: q in b.providers ==> Provides(ds, p, slot, q)
  }

  ghost predicate DistinctCoordinates(bs: seq<Binding>) {
    forall i, j :: 0 <= i < j < |bs| ==> bs[i].consumer != bs[j].consumer || bs[i].slotId != bs[j].slotId
  }

  /** Every slot of the declaration has a row. */
  ghost predicate AllSupplied(p: Profile, d: Declaration) {
    forall slot ::
      slot in d.slots ==> exists b :: b in p.bindings && b.consumer == d.implementationId && b.slotId == slot.slotId
  }

  /**
   * Every row has its own coordinate and a declared consumer; a selected consumer's rows are correct, and all its
   * slots have one.
   */
  ghost predicate BindingsValid(ds: seq<Declaration>, p: Profile) {
    && DistinctCoordinates(p.bindings)
    && (forall b :: b in p.bindings ==> Declares(ds, b.consumer))
    && (forall b :: b in p.bindings && IsSelected(p, b.consumer) ==> RowCorrect(ds, p, b))
    && (forall d :: d in ds && IsSelected(p, d.implementationId) ==> AllSupplied(p, d))
  }

  /** Who provides for whom: the rows of selected consumers. */
  ghost function Supply(p: Profile, bs: seq<Binding>): seq<G.ProviderEdge> {
    if bs == [] then []
    else
      var last := bs[|bs| - 1];
      Supply(p, bs[..|bs| - 1]) + if IsSelected(p, last.consumer) then RowEdges(last.providers, last.consumer) else []
  }

  ghost predicate IsRootId(p: Profile, id: Id) {
    exists s :: s in p.selections && s.moduleId in p.roots && s.implementationId == id
  }

  ghost predicate AllFeedRoots(p: Profile, nodes: seq<Id>, edges: seq<G.ProviderEdge>) {
    forall id :: id in nodes ==> exists r :: IsRootId(p, r) && G.Feeds(nodes, edges, id, r)
  }

  /**
   * The supply graph has no cycle, no chain beyond the depth limit, and every selection provides, directly or not,
   * for a root.
   */
  ghost predicate SupplyGood(p: Profile, nodes: seq<Id>, edges: seq<G.ProviderEdge>) {
    && (forall id :: id in nodes ==> !G.InCycle(nodes, edges, id))
    && (forall w :: G.IdWalk(nodes, edges, w) ==> |w| <= GRAPH_DEPTH)
    && AllFeedRoots(p, nodes, edges)
  }

  ghost predicate GraphValid(p: Profile) {
    var nodes, edges := IdsOf(p.selections, ImplementationSelected), Supply(p, p.bindings);
    SupplyGood(p, nodes, edges)
  }

  /** The provider occurrences of selected consumers stay within the edge budget. */
  ghost predicate WithinBudget(p: Profile) {
    |Supply(p, p.bindings)| <= GRAPH_EDGES
  }

  ghost predicate ValidComposition(ds: seq<Declaration>, p: Profile) {
    DeclaredOnce(ds) && SelectionsValid(ds, p) && RootsValid(p) && BindingsValid(ds, p) && WithinBudget(p)
      && GraphValid(p)
  }

  // ---------- declarations ----------

  lemma {:induction false} DistinctMatching<T>(xs: seq<T>, key: T -> Id)
    ensures Distinct(IdsOf(xs, key)) <==> forall id :: FindOne(xs, key, id) != Ambiguous
  {
    if Distinct(IdsOf(xs, key)) {
      assert forall i, j :: 0 <= i < j < |xs| ==> key(xs[i]) == IdsOf(xs, key)[i] != IdsOf(xs, key)[j] == key(xs[j]);
      forall id ensures FindOne(xs, key, id) != Ambiguous { FindOneMeans(xs, key, id); }
    }
    if forall id :: FindOne(xs, key, id) != Ambiguous {
      forall i, j | 0 <= i < j < |xs| ensures IdsOf(xs, key)[i] != IdsOf(xs, key)[j] {
        FindOneMeans(xs, key, key(xs[i]));
        assert FindOne(xs, key, key(xs[i])) != Ambiguous;
      }
    }
  }

  lemma SortedRepeats(ids: seq<Id>)
    ensures Repeats(Sort(TextLe, ids)) == {} <==> Distinct(ids)
  {
    TextOrder();
    SortCorrect(TextLe, ids);
    var s := Sort(TextLe, ids);
    hide Sort;
    if Distinct(ids) {
      DistinctPermutation(ids, s);
    } else if Repeats(s) == {} {
      forall i, j | 0 <= i < j < |s| ensures s[i] != s[j] {
        assert j !in Repeats(s);
        assert TextLe(s[i], s[j - 1]) && TextLe(s[j - 1], s[j]);
        TextTrichotomy(s[j - 1], s[j]);
        TextTrichotomy(s[i], s[j]);
        TextTrichotomy(s[i], s[j - 1]);
      }
      DistinctPermutation(s, ids);
    }
  }

  ghost predicate OnceIn(d: Declaration) {
    Distinct(IdsOf(d.capabilities, CapabilityIdOf)) && Distinct(IdsOf(d.slots, SlotIdOf))
  }

  lemma GroupClean(id: Id, group: seq<Declaration>)
    ensures GroupReports(id, group) == {} <==> |group| <= 1 && forall d :: d in group ==> OnceIn(d)
  {
    hide SortedIds, Repeats;
    forall d: Declaration
      ensures OnceIn(d) <==>
        Repeats(SortedIds(d.capabilities, CapabilityIdOf)) == {} && Repeats(SortedIds(d.slots, SlotIdOf)) == {}
    {
      OnceRepeats(d);
    }
    hide OnceIn;
    forall d | d in group
      ensures SlotRepeats(SortedIds(d.slots, SlotIdOf)) == {} <==> Repeats(SortedIds(d.slots, SlotIdOf)) == {}
    {
      SlotRepeatsEmpty(SortedIds(d.slots, SlotIdOf));
    }
    hide SlotRepeats;
    CandidatesEmpty(id, RepeatedCapabilities(group), RepeatedSlots(group));
    hide CapabilityReports, SlotReports;
    assert RepeatedCapabilities(group) == {} <==> forall d ::
      d in group ==> Repeats(SortedIds(d.capabilities, CapabilityIdOf)) == {} by {
      if RepeatedCapabilities(group) == {} {
        forall d | d in group ensures Repeats(SortedIds(d.capabilities, CapabilityIdOf)) == {} {
          assert Repeats(SortedIds(d.capabilities, CapabilityIdOf)) <= RepeatedCapabilities(group);
        }
      }
    }
    assert RepeatedSlots(group) == {} <==> forall d ::
      d in group ==> SlotRepeats(SortedIds(d.slots, SlotIdOf)) == {} by {
      if RepeatedSlots(group) == {} {
        forall d | d in group ensures SlotRepeats(SortedIds(d.slots, SlotIdOf)) == {} {
          assert SlotRepeats(SortedIds(d.slots, SlotIdOf)) <= RepeatedSlots(group);
        }
      }
    }
  }

  lemma OnceRepeats(d: Declaration)
    ensures OnceIn(d) <==>
      Repeats(SortedIds(d.capabilities, CapabilityIdOf)) == {} && Repeats(SortedIds(d.slots, SlotIdOf)) == {}
  {
    SortedRepeats(IdsOf(d.capabilities, CapabilityIdOf));
    SortedRepeats(IdsOf(d.slots, SlotIdOf));
  }

  lemma SlotRepeatsEmpty(sorted: seq<Id>)
    ensures SlotRepeats(sorted) == {} <==> Repeats(sorted) == {}
  {
    if i :| i in Repeats(sorted) { assert (sorted[i], i) in SlotRepeats(sorted); }
  }

  lemma CandidatesEmpty(id: Id, capabilities: set<nat>, slots: set<(Id, nat)>)
    ensures CapabilityReports(id, capabilities) == {} <==> capabilities == {}
    ensures SlotReports(id, slots) == {} <==> slots == {}
  {
    if i :| i in capabilities { assert DuplicateCapability(id, i) in CapabilityReports(id, capabilities); }
    if q :| q in slots { assert DuplicateSlot(id, q.0, q.1) in SlotReports(id, slots); }
  }

  /** Nothing is reported on the declarations exactly when everything is declared once. */
  lemma CensusClean(ds: seq<Declaration>)
    ensures CensusReports(ds) == {} <==> DeclaredOnce(ds)
  {
    hide GroupReports, Matching;
    DistinctMatching(ds, ImplementationOf);
    forall id { GroupClean(id, Matching(ds, ImplementationOf, id)); }
    assert CensusReports(ds) == {} <==> forall d ::
      d in ds ==> GroupReports(d.implementationId, Matching(ds, ImplementationOf, d.implementationId)) == {} by {
      if CensusReports(ds) == {} {
        forall d | d in ds
          ensures GroupReports(d.implementationId, Matching(ds, ImplementationOf, d.implementationId)) == {} {
          assert GroupReports(d.implementationId,
            Matching(ds, ImplementationOf, d.implementationId)) <= CensusReports(ds);
        }
      }
    }
    GroupsClean(ds);
  }

  lemma GroupsClean(ds: seq<Declaration>)
    ensures (forall d ::
      d in ds ==> GroupReports(d.implementationId, Matching(ds, ImplementationOf, d.implementationId)) == {})
            <==> (forall id :: FindOne(ds, ImplementationOf, id) != Ambiguous) && forall d :: d in ds ==> OnceIn(d)
  {
    hide GroupReports, OnceIn;
    if forall d ::
      d in ds ==> GroupReports(d.implementationId, Matching(ds, ImplementationOf, d.implementationId)) == {} {
      forall d | d in ds ensures OnceIn(d) && FindOne(ds, ImplementationOf, d.implementationId) != Ambiguous {
        GroupClean(d.implementationId, Matching(ds, ImplementationOf, d.implementationId));
        MatchingMember(ds, ImplementationOf, d.implementationId, d);
      }
      forall id ensures FindOne(ds, ImplementationOf, id) != Ambiguous { FindOneMeans(ds, ImplementationOf, id); }
    }
    if (forall id :: FindOne(ds, ImplementationOf, id) != Ambiguous) && forall d :: d in ds ==> OnceIn(d) {
      forall d | d in ds
        ensures GroupReports(d.implementationId, Matching(ds, ImplementationOf, d.implementationId)) == {} {
        assert FindOne(ds, ImplementationOf, d.implementationId) != Ambiguous;
        MatchingMembers(ds, ImplementationOf, d.implementationId);
        GroupClean(d.implementationId, Matching(ds, ImplementationOf, d.implementationId));
      }
    }
  }

  // ---------- selections and roots ----------

  /** The census of a complete, unambiguous declaration list. */
  ghost predicate Complete(ds: seq<Declaration>, c: Census) {
    CensusOf(ds, true, c) && DeclaredOnce(ds)
  }

  lemma CompleteLooks(ds: seq<Declaration>, c: Census, id: Id)
    requires Complete(ds, c)
    ensures c.identityComplete && c.moduleComplete
    ensures Look(c.implementations, id) != Ambiguous
    ensures Look(c.implementations, id) == Absent <==> !Declares(ds, id)
    ensures forall d :: d in ds && d.implementationId == id ==> Look(c.implementations, id) == Unique(DeclaredOf(d))
    ensures Look(c.implementations, id).Unique? ==> exists d ::
      d in ds && d.implementationId == id && Look(c.implementations, id).value == DeclaredOf(d)
  {
    hide Indexed;
    DistinctMatching(ds, ImplementationOf);
    FindOneMeans(ds, ImplementationOf, id);
    hide FindOne;
    assert Look(c.implementations, id) == DeclaredFor(ds, id);
    assert FindOne(ds, ImplementationOf, id) != Ambiguous;
    forall d | d in ds && d.implementationId == id ensures Look(c.implementations, id) == Unique(DeclaredOf(d)) {
      assert ImplementationOf(d) == id;
    }
    if Declares(ds, id) { var d :| d in ds && d.implementationId == id; assert ImplementationOf(d) == id; }
    if FindOne(ds, ImplementationOf, id).Unique? {
      var d := FindOne(ds, ImplementationOf, id).value;
      assert ImplementationOf(d) == id;
    }
  }

  lemma ResolvesIs(ds: seq<Declaration>, c: Census, s: Selection)
    requires Complete(ds, c)
    ensures Resolves(c, s) <==> exists d ::
      d in ds && d.implementationId == s.implementationId && d.moduleId == s.moduleId
    ensures RowReports(c, s) == {} <==> Resolves(c, s)
  {
    CompleteLooks(ds, c, s.implementationId);
    hide Indexed, CensusOf, DeclaredOnce;
    if Look(c.implementations, s.implementationId) == Absent {
      assert UnknownImplementation(s.moduleId, s.implementationId) in RowReports(c, s);
    }
  }

  lemma ModuleKnown(ds: seq<Declaration>, c: Census, p: Profile)
    requires Complete(ds, c) && (forall s :: s in p.selections ==> Resolves(c, s))
    ensures forall s :: s in p.selections ==> s.moduleId in c.modules
  {
    hide Indexed, DeclaredOnce, Resolves;
    forall s | s in p.selections ensures s.moduleId in c.modules {
      ResolvesIs(ds, c, s);
      var d :| d in ds && d.implementationId == s.implementationId && d.moduleId == s.moduleId;
    }
  }

  lemma SelectionsClean(ds: seq<Declaration>, c: Census, p: Profile)
    requires Complete(ds, c)
    ensures SelectionReports(c, p) == {} <==> SelectionsValid(ds, p)
    ensures SelectionsResolved(c, p) <==> SelectionsValid(ds, p)
  {
    DistinctMatching(p.selections, SelectedModule);
    forall s
      ensures Resolves(c, s) <==> exists d ::
        d in ds && d.implementationId == s.implementationId && d.moduleId == s.moduleId
    {
      ResolvesIs(ds, c, s);
    }
    hide Resolves, Matching, CensusOf, DeclaredOnce;
    assert (forall m :: FindOne(p.selections, SelectedModule, m) != Ambiguous) <==> forall m :: |Rows(p, m)| <= 1 by {
      assert forall m :: FindOne(p.selections, SelectedModule, m) != Ambiguous <==> |Rows(p, m)| <= 1;
    }
    if SelectionReports(c, p) == {} { SelectionsCleanThen(ds, c, p); }
    if SelectionsResolved(c, p) { SelectionsCleanWhen(ds, c, p); }
  }

  lemma SelectionsCleanThen(ds: seq<Declaration>, c: Census, p: Profile)
    requires Complete(ds, c) && SelectionReports(c, p) == {}
    ensures SelectionsResolved(c, p)
  {
    hide Matching, Resolves, CensusOf, DeclaredOnce;
    forall s | s in p.selections ensures Resolves(c, s) && |Rows(p, s.moduleId)| <= 1 {
      MatchingMember(p.selections, SelectedModule, s.moduleId, s);
      assert ModuleReports(c, s.moduleId, Rows(p, s.moduleId)) <= SelectionReports(c, p);
      assert RowReports(c, s) <= RowsReports(c, Rows(p, s.moduleId));
      ResolvesIs(ds, c, s);
      assert DuplicateSelection(s.moduleId) !in ModuleReports(c, s.moduleId, Rows(p, s.moduleId));
    }
    forall m ensures |Rows(p, m)| <= 1 {
      if |Rows(p, m)| > 0 { var s := Rows(p, m)[0]; MatchingMember(p.selections, SelectedModule, m, s); }
    }
  }

  lemma SelectionsCleanWhen(ds: seq<Declaration>, c: Census, p: Profile)
    requires Complete(ds, c) && SelectionsResolved(c, p)
    ensures SelectionReports(c, p) == {}
  {
    ModuleKnown(ds, c, p);
    hide Matching, Resolves, CensusOf, DeclaredOnce;
    forall s | s in p.selections ensures ModuleReports(c, s.moduleId, Rows(p, s.moduleId)) == {} {
      forall q | q in Rows(p, s.moduleId) ensures RowReports(c, q) == {} {
        MatchingMember(p.selections, SelectedModule, s.moduleId, q);
        ResolvesIs(ds, c, q);
      }
    }
  }

  lemma RootsClean(ds: seq<Declaration>, c: Census, p: Profile)
    requires Complete(ds, c) && SelectionsResolved(c, p)
    ensures RootsReports(c, p) == {} <==> RootsValid(p)
    ensures RootsValid(p) ==> RootsResolved(c, p)
  {
    ModuleKnown(ds, c, p);
    DistinctMatching(p.roots, Itself);
    assert IdsOf(p.roots, Itself) == p.roots;
    hide Resolves, CensusOf, DeclaredOnce;
    forall m
      ensures (Rows(p, m) == [] <==> !SelectsModule(p, m)) && (m in p.roots <==> Matching(p.roots, Itself, m) != [])
    {
      RowsEmpty(p, m);
      RootCounted(p, m);
    }
    hide Matching;
    if RootsReports(c, p) == {} {
      forall m | m in p.roots ensures SelectsModule(p, m) && |Matching(p.roots, Itself, m)| <= 1 {
        assert RootReports(c, p, m, |Matching(p.roots, Itself, m)|) <= RootsReports(c, p);
        assert DuplicateRoot(m) !in RootReports(c, p, m, |Matching(p.roots, Itself, m)|);
        assert UnknownRoot(m) !in RootReports(c, p, m, |Matching(p.roots, Itself, m)|);
        assert MissingSelection(m) !in RootReports(c, p, m, |Matching(p.roots, Itself, m)|);
      }
      assert forall m :: FindOne(p.roots, Itself, m) != Ambiguous;
    }
    if RootsValid(p) {
      forall m | m in p.roots
        ensures RootReports(c, p, m, |Matching(p.roots, Itself, m)|) == {} && RootResolved(c, p, m) {
        assert FindOne(p.roots, Itself, m) != Ambiguous;
        var s :| s in p.selections && s.moduleId == m;
        MatchingMember(p.selections, SelectedModule, m, Rows(p, m)[0]);
      }
    }
  }

  lemma RowsEmpty(p: Profile, m: Id)
    ensures Rows(p, m) == [] <==> !SelectsModule(p, m)
  {
    MatchingMembers(p.selections, SelectedModule, m);
    if |Rows(p, m)| > 0 { var s := Rows(p, m)[0]; MatchingMember(p.selections, SelectedModule, m, s); }
  }

  lemma RootCounted(p: Profile, m: Id)
    ensures m in p.roots <==> Matching(p.roots, Itself, m) != []
  {
    MatchingMember(p.roots, Itself, m, m);
    if |Matching(p.roots, Itself, m)| > 0 {
      var r := Matching(p.roots, Itself, m)[0];
      MatchingMember(p.roots, Itself, m, r);
    }
  }

  /** Nothing is reported on the profile exactly when its selections and roots are valid; then everything resolves. */
  lemma ProfileClean(ds: seq<Declaration>, c: Census, p: Profile)
    requires Complete(ds, c)
    ensures ProfileReports(c, p) == {} <==> SelectionsValid(ds, p) && RootsValid(p)
    ensures ProfileReports(c, p) == {} ==> RootsResolved(c, p)
  {
    hide SelectionReports, RootsReports, SelectionsValid, RootsValid, SelectionsResolved, Complete, RootsResolved;
    SelectionsClean(ds, c, p);
    if SelectionsResolved(c, p) { RootsClean(ds, c, p); }
  }

  // ---------- binding rows ----------

  ghost function CountAt(bs: seq<Binding>, i: Id, s: Id): nat {
    if bs == [] then 0
    else CountAt(bs[..|bs| - 1], i, s) + if bs[|bs| - 1].consumer == i && bs[|bs| - 1].slotId == s then 1
    else 0
  }

  lemma {:induction false} AtCounts(bs: seq<Binding>, i: Id, s: Id)
    ensures |At(Matching(bs, ConsumerOf, i), s)| == CountAt(bs, i, s)
    ensures CountAt(bs, i, s) > 0 <==> exists b :: b in bs && b.consumer == i && b.slotId == s
  {
    if bs != [] {
      var front, last := bs[..|bs| - 1], bs[|bs| - 1];
      AtCounts(front, i, s);
      assert bs == front + [last];
      var rows := Matching(front, ConsumerOf, i);
      assert (rows + [last])[..|rows|] == rows;
      if b :| b in bs && b.consumer == i && b.slotId == s { assert b in front || b == last; }
    }
  }

  ghost predicate OneEach(bs: seq<Binding>) {
    forall i, s :: CountAt(bs, i, s) <= 1
  }

  lemma {:induction false} CoordinatesOnce(bs: seq<Binding>)
    ensures DistinctCoordinates(bs) <==> OneEach(bs)
  {
    hide OneEach, DistinctCoordinates, CountAt;
    if bs == [] {
      NoneTwice();
    } else {
      var front, last := bs[..|bs| - 1], bs[|bs| - 1];
      assert bs == front + [last];
      CoordinatesOnce(front);
      if DistinctCoordinates(bs) { OnceThen(front, last); }
      if OneEach(bs) { OnceWhen(front, last); }
    }
  }

  lemma NoneTwice()
    ensures DistinctCoordinates([]) && OneEach([])
  {
  }

  lemma OnceThen(front: seq<Binding>, last: Binding)
    requires DistinctCoordinates(front + [last]) && (DistinctCoordinates(front) ==> OneEach(front))
    ensures OneEach(front + [last])
  {
    var bs := front + [last];
    assert bs[..|front|] == front;
    assert forall k :: 0 <= k < |front| ==> bs[k] == front[k];
    AtCounts(front, last.consumer, last.slotId);
    forall i, s ensures CountAt(bs, i, s) <= 1 { assert CountAt(front, i, s) <= 1; }
  }

  lemma OnceWhen(front: seq<Binding>, last: Binding)
    requires OneEach(front + [last]) && (OneEach(front) ==> DistinctCoordinates(front))
    ensures DistinctCoordinates(front + [last])
  {
    var bs := front + [last];
    assert bs[..|front|] == front;
    forall i, s ensures CountAt(front, i, s) <= 1 { assert CountAt(bs, i, s) <= 1; }
    AtCounts(front, last.consumer, last.slotId);
    assert CountAt(bs, last.consumer, last.slotId) <= 1;
    forall k | 0 <= k < |front| ensures bs[k].consumer != last.consumer || bs[k].slotId != last.slotId {
      assert front[k] in front;
    }
  }

  /** x holds the complete census and what the profile selects, each selection declared. */
  ghost predicate Settled(ds: seq<Declaration>, p: Profile, x: Context) {
    Complete(ds, x.census) && (forall i :: i in x.selected <==> IsSelected(p, i))
      && forall i :: i in x.selected ==> Declares(ds, i)
  }

  lemma LookOnce<T>(xs: seq<T>, key: T -> Id, id: Id)
    requires Distinct(IdsOf(xs, key))
    ensures Look(Indexed(xs, key), id) != Ambiguous
    ensures Look(Indexed(xs, key), id) == Absent <==> forall x :: x in xs ==> key(x) != id
    ensures forall x :: x in xs && key(x) == id ==> Look(Indexed(xs, key), id) == Unique(x)
    ensures Look(Indexed(xs, key), id).Unique? ==>
      Look(Indexed(xs, key), id).value in xs && key(Look(Indexed(xs, key), id).value) == id
  {
    DistinctMatching(xs, key);
    IndexedLooks(xs, key, id);
    FindOneMeans(xs, key, id);
    hide FindOne, Indexed;
    assert FindOne(xs, key, id) != Ambiguous;
  }

  lemma Known(ds: seq<Declaration>, p: Profile, x: Context, i: Id)
    requires Settled(ds, p, x)
    ensures Look(x.census.implementations, i) != Ambiguous && x.census.identityComplete
    ensures Look(x.census.implementations, i).Unique? <==> Declares(ds, i)
    ensures forall d ::
      d in ds && d.implementationId == i ==> OnceIn(d) && Look(x.census.implementations, i) == Unique(DeclaredOf(d))
  {
    hide CensusOf;
    CompleteLooks(ds, x.census, i);
    hide Indexed;
  }

  lemma ProvidesIs(ds: seq<Declaration>, p: Profile, x: Context, slot: Slot, q: Id)
    requires Settled(ds, p, x)
    ensures Provides(ds, p, slot, q) <==>
      && q in x.selected && Look(x.census.implementations, q).Unique?
      && var cap := Look(Look(x.census.implementations, q).value.capabilities, slot.capabilityId);
        cap.Unique? && cap.value.token == slot.token
    ensures forall d ::
      Look(x.census.implementations, q) == Unique(d) ==> Look(d.capabilities, slot.capabilityId) != Ambiguous
  {
    Known(ds, p, x, q);
    hide Complete;
    if Declares(ds, q) {
      var d :| d in ds && d.implementationId == q;
      LookOnce(d.capabilities, CapabilityIdOf, slot.capabilityId);
      forall e | e in ds && e.implementationId == q
        ensures e.capabilities == d.capabilities
          || Indexed(e.capabilities, CapabilityIdOf) == Indexed(d.capabilities, CapabilityIdOf) {
        assert DeclaredOf(e) == DeclaredOf(d);
      }
      hide Indexed, OnceIn;
      if Provides(ds, p, slot, q) {
        var e, c :|
          e in ds && e.implementationId == q && c in e.capabilities && c.capabilityId == slot.capabilityId
            && c.token == slot.token;
        LookHere(ds, p, x, e, slot, c);
      }
    }
  }

  lemma LookHere(ds: seq<Declaration>, p: Profile, x: Context, e: Declaration, slot: Slot, c: Capability)
    requires Settled(ds, p, x) && e in ds && c in e.capabilities && c.capabilityId == slot.capabilityId
    ensures Look(x.census.implementations, e.implementationId) == Unique(DeclaredOf(e))
    ensures Look(DeclaredOf(e).capabilities, slot.capabilityId) == Unique(c)
  {
    Known(ds, p, x, e.implementationId);
    hide Complete;
    assert CapabilityIdOf(c) == slot.capabilityId;
    LookOnce(e.capabilities, CapabilityIdOf, slot.capabilityId);
  }

  /** A row's record is valid, and nothing is reported on it, exactly when its providers are right. */
  lemma RecordClean(ds: seq<Declaration>, p: Profile, x: Context, b: Binding, slot: Slot)
    requires Settled(ds, p, x)
    ensures RecordReports(x, b, slot) == {} <==> RecordValid(x, b, slot)
    ensures RecordValid(x, b, slot) <==> Allowed(slot.bounds, |b.providers|) && Distinct(b.providers) && forall q ::
      q in b.providers ==> Provides(ds, p, slot, q)
  {
    forall q ensures Look(x.census.implementations, q) != Ambiguous { Known(ds, p, x, q); }
    forall q, d | Look(x.census.implementations, q) == Unique(d)
      ensures Look(d.capabilities, slot.capabilityId) != Ambiguous
    {
      ProvidesIs(ds, p, x, slot, q);
    }
    Known(ds, p, x, b.consumer);
    hide Settled, RecordReports;
    if RecordReports(x, b, slot) == {} { NoReportsMeansValid(x, b, slot); }
    if RecordValid(x, b, slot) { ValidMeansNoReports(x, b, slot); }
    ProvidersOnce(ds, p, x, b, slot);
  }

  lemma ProvidersOnce(ds: seq<Declaration>, p: Profile, x: Context, b: Binding, slot: Slot)
    requires Settled(ds, p, x)
    ensures (forall q :: q in b.providers ==> ProviderValid(x, b, slot, q))
            <==> Distinct(b.providers) && forall q :: q in b.providers ==> Provides(ds, p, slot, q)
  {
    DistinctMatching(b.providers, Itself);
    assert IdsOf(b.providers, Itself) == b.providers;
    forall q ensures q in b.providers <==> Matching(b.providers, Itself, q) != [] {
      MatchingMember(b.providers, Itself, q, q);
      if |Matching(b.providers, Itself, q)| > 0 {
        var r := Matching(b.providers, Itself, q)[0];
        MatchingMember(b.providers, Itself, q, r);
      }
    }
    forall q ensures Provides(ds, p, slot, q) <==>
      && q in x.selected && Look(x.census.implementations, q).Unique?
      && var cap := Look(Look(x.census.implementations, q).value.capabilities, slot.capabilityId);
        cap.Unique? && cap.value.token == slot.token {
      ProvidesIs(ds, p, x, slot, q);
    }
    hide Matching, Provides, Settled;
    assert forall q :: FindOne(b.providers, Itself, q) != Ambiguous <==> |Matching(b.providers, Itself, q)| <= 1;
    assert forall q :: q !in b.providers ==> |Matching(b.providers, Itself, q)| == 0;
  }

  lemma SlotKnown(ds: seq<Declaration>, p: Profile, x: Context, d: Declaration, s: Id)
    requires Settled(ds, p, x) && d in ds
    ensures Look(x.census.implementations, d.implementationId) == Unique(DeclaredOf(d))
    ensures Look(DeclaredOf(d).slots, s) != Ambiguous
    ensures Look(DeclaredOf(d).slots, s) == Absent <==> forall slot :: slot in d.slots ==> slot.slotId != s
    ensures forall slot :: slot in d.slots && slot.slotId == s ==> Look(DeclaredOf(d).slots, s) == Unique(slot)
    ensures Look(DeclaredOf(d).slots, s).Unique? ==>
      Look(DeclaredOf(d).slots, s).value in d.slots && Look(DeclaredOf(d).slots, s).value.slotId == s
  {
    Known(ds, p, x, d.implementationId);
    LookOnce(d.slots, SlotIdOf, s);
    hide Complete, Indexed;
    forall slot: Slot ensures SlotIdOf(slot) == slot.slotId {}
  }

  ghost predicate RowGood(ds: seq<Declaration>, p: Profile, b: Binding) {
    Declares(ds, b.consumer) && (IsSelected(p, b.consumer) ==> RowCorrect(ds, p, b))
  }

  /**
   * A row with its own coordinate: nothing is reported on it exactly when its consumer is declared and, if
   * selected, the row is correct.
   */
  ghost function RowReportsAt(x: Context, p: Profile, b: Binding): set<Candidate> {
    ConsumerReports(x, b.consumer, RowsOfConsumer(p, b.consumer))
  }

  lemma CorrectIs(ds: seq<Declaration>, p: Profile, x: Context, b: Binding, d: Declaration)
    requires Settled(ds, p, x) && d in ds && d.implementationId == b.consumer
    ensures RowCorrect(ds, p, b) <==>
      Look(DeclaredOf(d).slots, b.slotId).Unique? && RecordValid(x, b, Look(DeclaredOf(d).slots, b.slotId).value)
  {
    SlotKnown(ds, p, x, d, b.slotId);
    hide Indexed, RecordValid, Provides;
    if RowCorrect(ds, p, b) {
      var e, slot :| e in ds && e.implementationId == b.consumer && slot in e.slots && slot.slotId == b.slotId
                     && Allowed(slot.bounds, |b.providers|) && Distinct(b.providers)
                     && forall q :: q in b.providers ==> Provides(ds, p, slot, q);
      SlotKnown(ds, p, x, e, b.slotId);
      RecordClean(ds, p, x, b, slot);
    }
    if Look(DeclaredOf(d).slots, b.slotId).Unique? {
      RecordClean(ds, p, x, b, Look(DeclaredOf(d).slots, b.slotId).value);
    }
  }

  lemma ConsumerLook(ds: seq<Declaration>, p: Profile, x: Context, i: Id) returns (d: Declaration)
    requires Settled(ds, p, x) && Declares(ds, i)
    ensures d in ds && d.implementationId == i && Look(x.census.implementations, i) == Unique(DeclaredOf(d))
  {
    d :| d in ds && d.implementationId == i;
    Known(ds, p, x, i);
  }

  /** Rows at one coordinate, when there is at most one. */
  lemma OnlyRow(p: Profile, b: Binding)
    requires b in p.bindings && CountAt(p.bindings, b.consumer, b.slotId) <= 1
    ensures At(RowsOfConsumer(p, b.consumer), b.slotId) == [b] && b in RowsOfConsumer(p, b.consumer)
  {
    AtCounts(p.bindings, b.consumer, b.slotId);
    MatchingMember(p.bindings, ConsumerOf, b.consumer, b);
    MatchingMember(RowsOfConsumer(p, b.consumer), BoundSlot, b.slotId, b);
  }

  lemma InSlotIds(rows: seq<Binding>, b: Binding)
    requires b in rows
    ensures b.slotId in SlotIds(rows)
  {
    var k :| 0 <= k < |rows| && rows[k] == b;
    assert SlotIds(rows)[k] == b.slotId;
  }

  lemma SlotIdRow(rows: seq<Binding>, s: Id) returns (b: Binding)
    requires s in SlotIds(rows)
    ensures b in rows && b.slotId == s
  {
    var k :| 0 <= k < |rows| && SlotIds(rows)[k] == s;
    b := rows[k];
  }

  /**
   * No report on a consumer's rows: the consumer is declared, coordinates are not repeated, and selected rows fill
   * their slots.
   */
  lemma ConsumerCleanThen(ds: seq<Declaration>, p: Profile, x: Context, b: Binding)
    requires Settled(ds, p, x) && b in p.bindings && RowReportsAt(x, p, b) == {}
    ensures RowGood(ds, p, b) && CountAt(p.bindings, b.consumer, b.slotId) <= 1
  {
    var rows := RowsOfConsumer(p, b.consumer);
    MatchingMember(p.bindings, ConsumerOf, b.consumer, b);
    InSlotIds(rows, b);
    AtCounts(p.bindings, b.consumer, b.slotId);
    Known(ds, p, x, b.consumer);
    assert Repeated(b.consumer, rows, b.slotId) <= RepeatedFor(b.consumer, rows, SlotIds(rows))
           <= RowReportsAt(x, p, b);
    assert DuplicateRecord(b.consumer, b.slotId) !in Repeated(b.consumer, rows, b.slotId);
    hide Matching, SlotIds, CountAt, RepeatedFor, Provides, RecordValid, RecordReports, Complete;
    assert UnknownConsumer(b.consumer) !in RowReportsAt(x, p, b);
    if IsSelected(p, b.consumer) {
      var d := ConsumerLook(ds, p, x, b.consumer);
      assert SlotRowReports(x, b.consumer, DeclaredOf(d), rows, b.slotId) <= SlotsReports(x, b.consumer, DeclaredOf(d),
        rows, SlotIds(rows)) <= RowReportsAt(x, p, b);
      hide SlotsReports;
      OnlyRow(p, b);
      SlotKnown(ds, p, x, d, b.slotId);
      CorrectIs(ds, p, x, b, d);
      assert UnknownSlot(b.consumer, b.slotId) !in SlotRowReports(x, b.consumer, DeclaredOf(d), rows, b.slotId);
      var slot := Look(DeclaredOf(d).slots, b.slotId).value;
      assert RecordReports(x, b, slot) <= RecordsReports(x, At(rows, b.slotId), slot);
      RecordClean(ds, p, x, b, slot);
    }
  }

  lemma SlotClean(ds: seq<Declaration>, p: Profile, x: Context, i: Id, d: Declaration, b: Binding)
    requires Settled(ds, p, x) && b in p.bindings && b.consumer == i && d in ds && d.implementationId == i
    requires RowGood(ds, p, b) && CountAt(p.bindings, i, b.slotId) <= 1
    ensures Repeated(i, RowsOfConsumer(p, i), b.slotId) == {}
    ensures i in x.selected ==>
      SlotRowReports(x, i, DeclaredOf(d), RowsOfConsumer(p, i), b.slotId) == {}
        && SlotFilled(x, DeclaredOf(d), RowsOfConsumer(p, i), b.slotId)
  {
    hide Matching, CountAt, Provides, RecordValid, RecordReports, Complete, RowCorrect;
    OnlyRow(p, b);
    if i in x.selected {
      CorrectIs(ds, p, x, b, d);
      RecordClean(ds, p, x, b, Look(DeclaredOf(d).slots, b.slotId).value);
    }
  }

  lemma ConsumerCleanWhen(ds: seq<Declaration>, p: Profile, x: Context, i: Id)
    requires Settled(ds, p, x)
    requires forall b ::
      b in p.bindings && b.consumer == i ==> RowGood(ds, p, b) && CountAt(p.bindings, i, b.slotId) <= 1
    requires RowsOfConsumer(p, i) != []
    ensures ConsumerReports(x, i, RowsOfConsumer(p, i)) == {}
    ensures i in x.selected ==> RowsFill(x, i, RowsOfConsumer(p, i))
  {
    hide SlotIds, CountAt, Settled, SlotFilled, SlotRowReports, Repeated;
    var rows := RowsOfConsumer(p, i);
    MatchingMembers(p.bindings, ConsumerOf, i);
    var first := rows[0];
    MatchingMember(p.bindings, ConsumerOf, i, first);
    var d := ConsumerLook(ds, p, x, i);
    hide Matching, RowGood;
    forall s | s in SlotIds(rows)
      ensures Repeated(i, rows, s) == {}
      ensures i in x.selected ==>
        SlotRowReports(x, i, DeclaredOf(d), rows, s) == {} && SlotFilled(x, DeclaredOf(d), rows, s)
    {
      var b := SlotIdRow(rows, s);
      SlotClean(ds, p, x, i, d, b);
    }
  }

  // ---------- missing rows and the frontier ----------

  lemma {:induction false} AllUnique<T>(xs: seq<T>, key: T -> Id)
    requires Distinct(IdsOf(xs, key))
    ensures |set id | id in Indexed(xs, key) && Indexed(xs, key)[id].Unique?| == |xs|
  {
    var ids := IdsOf(xs, key);
    DistinctCardinality(ids);
    forall id ensures id in ids <==> id in Indexed(xs, key) && Indexed(xs, key)[id].Unique? {
      LookOnce(xs, key, id);
      if id in ids { var k :| 0 <= k < |ids| && ids[k] == id; assert xs[k] in xs && key(xs[k]) == id; }
      if id in Indexed(xs, key) && Indexed(xs, key)[id].Unique? {
        var v := Indexed(xs, key)[id].value;
        var k :| 0 <= k < |xs| && xs[k] == v;
        assert ids[k] == id;
      }
    }
    assert (set id | id in Indexed(xs, key) && Indexed(xs, key)[id].Unique?) == Elements(ids);
  }

  lemma MissingClean(ds: seq<Declaration>, p: Profile, x: Context, d: Declaration)
    requires Settled(ds, p, x) && d in ds
    ensures MissingFor(x, p, d.implementationId) == {} <==> AllSupplied(p, d)
    ensures AllSupplied(p, d) ==> SlotsSupplied(x, p, d.implementationId)
  {
    var i := d.implementationId;
    Known(ds, p, x, i);
    AllUnique(d.slots, SlotIdOf);
    hide Complete;
    forall s ensures s in UniqueSlotIds(DeclaredOf(d)) <==> exists slot :: slot in d.slots && slot.slotId == s {
      SlotKnown(ds, p, x, d, s);
    }
    forall s
      ensures At(RowsOfConsumer(p, i), s) != [] <==> exists b :: b in p.bindings && b.consumer == i && b.slotId == s
    {
      AtCounts(p.bindings, i, s);
    }
    MissingSlots(p, x, d);
  }

  lemma MissingSlots(p: Profile, x: Context, d: Declaration)
    requires Look(x.census.implementations, d.implementationId) == Unique(DeclaredOf(d))
    requires forall s :: s in UniqueSlotIds(DeclaredOf(d)) <==> exists slot :: slot in d.slots && slot.slotId == s
    requires forall s ::
      At(RowsOfConsumer(p, d.implementationId), s) != [] <==> exists b ::
        b in p.bindings && b.consumer == d.implementationId && b.slotId == s
    requires |UniqueSlotIds(DeclaredOf(d))| == |d.slots|
    ensures MissingFor(x, p, d.implementationId) == {} <==> AllSupplied(p, d)
    ensures AllSupplied(p, d) ==> SlotsSupplied(x, p, d.implementationId)
  {
    hide UniqueSlotIds, At, RowsOfConsumer, Indexed;
    if MissingFor(x, p, d.implementationId) == {} {
      forall slot | slot in d.slots ensures At(RowsOfConsumer(p, d.implementationId), slot.slotId) != [] {
        assert slot.slotId in UniqueSlotIds(DeclaredOf(d));
        assert MissingBinding(d.implementationId, slot.slotId) !in MissingFor(x, p, d.implementationId);
      }
    }
  }

  ghost predicate RowsGood(ds: seq<Declaration>, p: Profile) {
    forall b :: b in p.bindings ==> RowGood(ds, p, b)
  }

  ghost predicate SlotsGood(ds: seq<Declaration>, p: Profile) {
    forall d :: d in ds && IsSelected(p, d.implementationId) ==> AllSupplied(p, d)
  }

  lemma BindingsParts(ds: seq<Declaration>, p: Profile)
    ensures BindingsValid(ds, p) <==> DistinctCoordinates(p.bindings) && RowsGood(ds, p) && SlotsGood(ds, p)
  {
    hide RowCorrect, IsSelected, Declares, DistinctCoordinates;
    hide AllSupplied;
    if RowsGood(ds, p) {
      forall b | b in p.bindings
        ensures Declares(ds, b.consumer) && (IsSelected(p, b.consumer) ==> RowCorrect(ds, p, b))
      {
        assert RowGood(ds, p, b);
      }
    }
  }

  lemma SuppliedClean(ds: seq<Declaration>, p: Profile, x: Context)
    requires Settled(ds, p, x)
    ensures SuppliedReports(x, p) == {} <==> DistinctCoordinates(p.bindings) && RowsGood(ds, p)
    ensures SuppliedReports(x, p) == {} ==> forall i ::
      i in x.selected && RowsOfConsumer(p, i) != [] ==> RowsFill(x, i, RowsOfConsumer(p, i))
  {
    CoordinatesOnce(p.bindings);
    hide Settled, RowGood, DistinctCoordinates, CountAt, ConsumerReports, RowsFill, RowsOfConsumer;
    if SuppliedReports(x, p) == {} {
      forall b | b in p.bindings ensures RowGood(ds, p, b) && CountAt(p.bindings, b.consumer, b.slotId) <= 1 {
        var k :| 0 <= k < |p.bindings| && p.bindings[k] == b;
        assert IdsOf(p.bindings, ConsumerOf)[k] == b.consumer;
        assert RowReportsAt(x, p, b) <= SuppliedReports(x, p);
        ConsumerCleanThen(ds, p, x, b);
      }
      forall i, s ensures CountAt(p.bindings, i, s) <= 1 { AtCounts(p.bindings, i, s); }
      assert OneEach(p.bindings);
    }
    if DistinctCoordinates(p.bindings) && RowsGood(ds, p) {
      forall i | RowsOfConsumer(p, i) != []
        ensures ConsumerReports(x, i, RowsOfConsumer(p, i)) == {}
        ensures (i in x.selected ==> RowsFill(x, i, RowsOfConsumer(p, i))) {
        ConsumerCleanWhen(ds, p, x, i);
      }
      forall i | i in IdsOf(p.bindings, ConsumerOf) ensures RowsOfConsumer(p, i) != [] {
        var k :| 0 <= k < |p.bindings| && IdsOf(p.bindings, ConsumerOf)[k] == i;
        RowListed(p, p.bindings[k]);
      }
    }
  }

  lemma RowListed(p: Profile, b: Binding)
    requires b in p.bindings
    ensures b in RowsOfConsumer(p, b.consumer)
  {
    MatchingMember(p.bindings, ConsumerOf, b.consumer, b);
  }

  lemma MissingAllClean(ds: seq<Declaration>, p: Profile, x: Context, ids: seq<Id>)
    requires Settled(ds, p, x) && forall i :: i in ids <==> i in x.selected
    ensures MissingReports(x, p, ids) == {} <==> SlotsGood(ds, p)
    ensures MissingReports(x, p, ids) == {} ==> forall i :: i in x.selected ==> SlotsSupplied(x, p, i)
  {
    hide Complete, MissingFor, AllSupplied, SlotsSupplied;
    if MissingReports(x, p, ids) == {} {
      forall d | d in ds && IsSelected(p, d.implementationId) ensures AllSupplied(p, d) {
        assert MissingFor(x, p, d.implementationId) <= MissingReports(x, p, ids);
        MissingClean(ds, p, x, d);
      }
      forall i | i in x.selected ensures SlotsSupplied(x, p, i) {
        var d := ConsumerLook(ds, p, x, i);
        MissingClean(ds, p, x, d);
      }
    }
    if SlotsGood(ds, p) {
      forall i | i in ids ensures MissingFor(x, p, i) == {} {
        var d := ConsumerLook(ds, p, x, i);
        MissingClean(ds, p, x, d);
      }
    }
  }

  /**
   * Nothing is reported on the rows exactly when they are valid; then every selected implementation has all its
   * rows.
   */
  lemma BindingsClean(ds: seq<Declaration>, p: Profile, x: Context, ids: seq<Id>)
    requires Settled(ds, p, x) && forall i :: i in ids <==> i in x.selected
    ensures BindingReports(x, p, ids) == {} <==> BindingsValid(ds, p)
    ensures BindingReports(x, p, ids) == {} ==> forall i :: i in x.selected ==> FrontierComplete(x, p, i)
  {
    hide SuppliedReports, MissingReports, Settled, RowsFill, SlotsSupplied, RowsOfConsumer, BindingsValid,
         DistinctCoordinates, RowsGood, SlotsGood;
    SuppliedClean(ds, p, x);
    MissingAllClean(ds, p, x, ids);
    BindingsParts(ds, p);
  }

  // ---------- the edge budget ----------

  ghost function Facts(bs: seq<Binding>): (r: seq<RowFact>)
    ensures |r| == |bs|
  {
    seq(|bs|, k requires 0 <= k < |bs| => RowFact(k, bs[k].consumer, Some(bs[k].slotId), |bs[k].providers|))
  }

  /** Everything was admitted, rows within their schema bound, and the observations are those of the profile itself. */
  ghost predicate Admitted(i: Input, p: Profile) {
    && i.profile == Some(p) && i.allDeclarationsAdmitted && !i.hasErrors
    && i.observations == Some(Observations(p.selections, true, Facts(p.bindings)))
    && forall b :: b in p.bindings ==> |b.providers| <= PROVIDERS_PER_MANY_SLOT
  }

  lemma {:induction false} SupplySize(p: Profile, bs: seq<Binding>)
    ensures |Supply(p, bs)| == Occurrences(p.selections, Facts(bs))
  {
    if bs != [] {
      SupplySize(p, bs[..|bs| - 1]);
      assert Facts(bs)[..|bs| - 1] == Facts(bs[..|bs| - 1]);
    }
  }

  lemma ResourcesClean(i: Input, p: Profile, c: Census)
    requires Admitted(i, p)
    ensures ResourceReports(c, i.observations) == {} <==> WithinBudget(p)
    ensures WithinBudget(p) <==> !EdgesExceeded(i.observations.value)
  {
    SupplySize(p, p.bindings);
    var rows := Facts(p.bindings);
    forall row | row in rows ensures !Overfull(c, p.selections, row) {
      var k :| 0 <= k < |rows| && rows[k] == row;
      assert p.bindings[k] in p.bindings;
    }
    hide Overfull, Occurrences, Supply;
    assert OverfullReports(c, p.selections, rows) == {};
    if !WithinBudget(p) { assert TooManyEdges in ResourceReports(c, i.observations); }
  }

  // ---------- the graph ----------

  lemma {:induction false} SupplyIs(p: Profile, bs: seq<Binding>, e: G.ProviderEdge)
    ensures e in Supply(p, bs) <==> exists b ::
      b in bs && IsSelected(p, b.consumer) && b.consumer == e.1 && e.0 in b.providers
  {
    hide IsSelected, RowEdges;
    if bs != [] {
      var front, last := bs[..|bs| - 1], bs[|bs| - 1];
      SupplyIs(p, front, e);
      RowEdgesAre(last.providers, last.consumer, e);
      assert bs == front + [last];
      if b :| b in bs && IsSelected(p, b.consumer) && b.consumer == e.1 && e.0 in b.providers {
        assert b in front || b == last;
      }
    }
  }

  ghost predicate SameIds(a: seq<Id>, b: seq<Id>) {
    forall i :: i in a <==> i in b
  }

  ghost predicate SameEdges(a: seq<G.ProviderEdge>, b: seq<G.ProviderEdge>) {
    forall e :: e in a <==> e in b
  }

  lemma WalkSame(n: seq<Id>, e: seq<G.ProviderEdge>, m: seq<Id>, f: seq<G.ProviderEdge>, w: seq<Id>)
    requires SameIds(n, m) && SameEdges(e, f)
    ensures G.IdWalk(n, e, w) <==> G.IdWalk(m, f, w)
  {
  }

  lemma FeedsSame(n: seq<Id>, e: seq<G.ProviderEdge>, m: seq<Id>, f: seq<G.ProviderEdge>, a: Id, b: Id)
    requires SameIds(n, m) && SameEdges(e, f)
    ensures G.Feeds(n, e, a, b) <==> G.Feeds(m, f, a, b)
  {
    forall w: seq<Id> ensures G.IdWalk(n, e, w) <==> G.IdWalk(m, f, w) { WalkSame(n, e, m, f, w); }
    hide G.IdWalk;
  }

  lemma InCycleSame(n: seq<Id>, e: seq<G.ProviderEdge>, m: seq<Id>, f: seq<G.ProviderEdge>, a: Id)
    requires SameIds(n, m) && SameEdges(e, f)
    ensures G.InCycle(n, e, a) <==> G.InCycle(m, f, a)
  {
    forall b ensures G.Feeds(n, e, b, a) <==> G.Feeds(m, f, b, a) { FeedsSame(n, e, m, f, b, a); }
    hide G.Feeds;
  }

  /** With every row in order, the edges of the graph are the supply of the profile. */
  lemma EdgesAreSupply(ds: seq<Declaration>, p: Profile, x: Context, b: Bindings)
    requires Settled(ds, p, x) && BindingsOf(x, p, b) && forall i :: i in x.selected ==> FrontierComplete(x, p, i)
    ensures SameEdges(EdgesOf(b.valid), Supply(p, p.bindings))
  {
    hide EdgesOf, Supply, Complete, FrontierComplete, SortedBy, IsValidRow;
    forall e ensures e in EdgesOf(b.valid) <==> e in Supply(p, p.bindings) {
      EdgesAre(b.valid, e);
      SupplyIs(p, p.bindings, e);
      if v :| v in b.valid && v.0.consumer == e.1 && e.0 in v.0.providers { ValidRowIs(ds, p, x, v); }
      if r :| r in p.bindings && IsSelected(p, r.consumer) && r.consumer == e.1 && e.0 in r.providers {
        var slot := RowIsValid(ds, p, x, r);
        assert (r, slot) in b.valid;
      }
    }
  }

  lemma ValidRowIs(ds: seq<Declaration>, p: Profile, x: Context, v: (Binding, Slot))
    requires Settled(ds, p, x) && IsValidRow(x, p, v)
    ensures v.0 in p.bindings && IsSelected(p, v.0.consumer)
  {
    hide Complete, SlotFilled;
    MatchingMember(p.bindings, ConsumerOf, v.0.consumer, v.0);
  }

  lemma RowIsValid(ds: seq<Declaration>, p: Profile, x: Context, r: Binding) returns (slot: Slot)
    requires Settled(ds, p, x) && r in p.bindings && IsSelected(p, r.consumer) && FrontierComplete(x, p, r.consumer)
    ensures IsValidRow(x, p, (r, slot))
  {
    hide Complete, SlotFilled, SlotsSupplied, SlotIds;
    RowListed(p, r);
    var rows := RowsOfConsumer(p, r.consumer);
    InSlotIds(rows, r);
    var d := Look(x.census.implementations, r.consumer).value;
    assert SlotFilled(x, d, rows, r.slotId);
    FilledSlot(x, d, rows, r.slotId);
    slot := Look(d.slots, r.slotId).value;
  }

  lemma FilledSlot(x: Context, d: Declared, rows: seq<Binding>, s: Id)
    requires SlotFilled(x, d, rows, s)
    ensures Look(d.slots, s).Unique?
  {
  }

  lemma NoCycles(nodes: seq<Id>, edges: seq<G.ProviderEdge>, cycles: seq<seq<Id>>)
    requires G.CycleReports(nodes, edges, cycles)
    ensures cycles == [] <==> forall id :: id in nodes ==> !G.InCycle(nodes, edges, id)
  {
    if cycles != [] {
      assert G.CycleReport(nodes, edges, cycles[0]);
      G.CycleReportNodes(nodes, edges, cycles[0]);
      assert cycles[0][0] in cycles[0];
    }
    hide G.CycleReport, G.InCycle;
  }

  lemma ShallowWalks(nodes: seq<Id>, edges: seq<G.ProviderEdge>, d: nat)
    requires G.LongestWalk(nodes, edges, d) && forall id :: id in nodes ==> !G.InCycle(nodes, edges, id)
    ensures d <= GRAPH_DEPTH <==> forall w :: G.IdWalk(nodes, edges, w) ==> |w| <= GRAPH_DEPTH
  {
    hide G.InCycle;
    forall w: seq<Id> ensures G.IdWalk(nodes, edges, w) <==> G.AcyclicWalk(nodes, edges, w) {}
    hide G.AcyclicWalk, G.IdWalk;
  }

  lemma ClosureCovers(p: Profile, nodes: seq<Id>, edges: seq<G.ProviderEdge>, roots: seq<Id>, closure: seq<Id>)
    requires G.RootClosure(nodes, edges, roots, closure) && RootIds(p, roots)
    ensures AllFeedRoots(p, nodes, edges) <==> forall id :: id in nodes ==> id in closure
  {
    hide G.Feeds, G.IdsIncrease;
    assert forall r :: r in roots <==> IsRootId(p, r);
    hide RootIds, IsRootId;
  }

  lemma SupplyGoodSame(p: Profile, n: seq<Id>, e: seq<G.ProviderEdge>, m: seq<Id>, f: seq<G.ProviderEdge>)
    requires SameIds(n, m) && SameEdges(e, f) && SupplyGood(p, n, e)
    ensures SupplyGood(p, m, f)
  {
    hide IsRootId;
    forall id ensures G.InCycle(n, e, id) <==> G.InCycle(m, f, id) { InCycleSame(n, e, m, f, id); }
    forall w: seq<Id> ensures G.IdWalk(n, e, w) <==> G.IdWalk(m, f, w) { WalkSame(n, e, m, f, w); }
    forall a, b ensures G.Feeds(n, e, a, b) <==> G.Feeds(m, f, a, b) { FeedsSame(n, e, m, f, a, b); }
    hide G.InCycle, G.IdWalk, G.Feeds;
  }

  /** The graph of a settled profile: nothing is reported exactly when its supply is good. */
  lemma GraphClean(p: Profile, s: Selected, b: Bindings, a: G.Analysis, edges: seq<G.ProviderEdge>)
    requires G.Correct(s.ids, edges, RootsOr(s.roots), a) && s.roots.Some? && RootIds(p, s.roots.value)
    requires s.nodes.Some? && |s.nodes.value| == |s.ids|
      && forall i :: 0 <= i < |s.ids| ==> s.nodes.value[i].implementationId == s.ids[i]
    requires forall id :: id in s.ids ==> id in b.complete
    ensures GraphReports(s, b, a) == {} <==> SupplyGood(p, s.ids, edges)
    ensures GraphReports(s, b, a) == {} ==> a.dependencyOrder.Some?
  {
    hide G.CycleReports, G.LongestWalk, G.RootClosure, G.LeastDependencyOrder, G.InCycle, G.IdWalk, AllFeedRoots,
         RootIds, FailureReports, UnreachedNodes;
    NoCycles(s.ids, edges, a.cycles);
    ClosureInside(s.ids, edges, s.roots.value, a.rootClosure);
    ClosureCovers(p, s.ids, edges, s.roots.value, a.rootClosure);
    if a.cycles == [] { ShallowWalks(s.ids, edges, a.residualDepth); }
    FailuresEmpty(a);
    UnreachedEmpty(s.nodes.value, s.ids, a.rootClosure);
  }

  lemma ClosureInside(nodes: seq<Id>, edges: seq<G.ProviderEdge>, roots: seq<Id>, closure: seq<Id>)
    requires G.RootClosure(nodes, edges, roots, closure)
    ensures forall id :: id in closure ==> id in nodes
  {
    forall id | id in closure ensures id in nodes {
      var r :| r in roots && G.Feeds(nodes, edges, id, r);
      var w :| G.IdWalk(nodes, edges, w) && w[0] == id && w[|w| - 1] == r;
    }
  }

  lemma FailuresEmpty(a: G.Analysis)
    ensures FailureReports(a) == {} <==> a.residualDepth <= GRAPH_DEPTH && a.cycles == []
  {
    if a.cycles != [] { assert a.cycles[0] in a.cycles; assert Cycle(a.cycles[0]) in CycleCandidates(a.cycles); }
    if a.residualDepth > GRAPH_DEPTH { assert TooDeep in FailureReports(a); }
  }

  lemma UnreachedEmpty(nodes: seq<Declared>, ids: seq<Id>, closure: seq<Id>)
    requires |nodes| == |ids| && forall i :: 0 <= i < |ids| ==> nodes[i].implementationId == ids[i]
    ensures UnreachedNodes(nodes, closure) == {} <==> forall id :: id in ids ==> id in closure
  {
    if UnreachedNodes(nodes, closure) == {} {
      forall id | id in ids ensures id in closure {
        var i :| 0 <= i < |ids| && ids[i] == id;
        assert nodes[i] in nodes;
        assert Unreachable(nodes[i].moduleId, nodes[i].implementationId) !in UnreachedNodes(nodes, closure);
      }
    }
  }

  // ---------- the whole composition ----------

  lemma ContextSettled(ds: seq<Declaration>, p: Profile, d: Derived)
    requires Complete(ds, d.census)
    requires SelectedOf(d.census, p, d.selected)
    requires ContextOf(d.census, d.selected, d.context)
    requires SelectionsResolved(d.census, p)
    ensures Settled(ds, p, d.context)
  {
    hide Indexed, DeclaredOnce, CensusOf, RootsResolved;
    forall i | i in d.context.selected ensures Declares(ds, i) {
      var s :| s in p.selections && s.implementationId == i;
      assert Resolves(d.census, s);
      ResolvesIs(ds, d.census, s);
    }
  }

  /** The admitted input behind a derivation, with the declarations and the profile settled. */
  ghost predicate SettledInput(i: Input, p: Profile, d: Derived) {
    && Admitted(i, p) && Derives(i, d) && DeclaredOnce(i.declarations) && SelectionsValid(i.declarations, p)
    && RootsValid(p)
  }

  lemma SettledFacts(i: Input, p: Profile, d: Derived)
    requires SettledInput(i, p, d)
    ensures Complete(i.declarations, d.census) && Settled(i.declarations, p, d.context)
    ensures d.selected.roots.Some? && d.selected.nodes.Some? && RootIds(p, d.selected.roots.value)
    ensures BindingsOf(d.context, p, d.bindings) && forall id :: id in d.selected.ids <==> id in d.context.selected
    ensures d.analysis.Some? <==> WithinBudget(p)
    ensures d.analysis.Some? ==>
      G.Correct(d.selected.ids, EdgesOf(d.bindings.valid), RootsOr(d.selected.roots), d.analysis.value)
    ensures forall id :: id in d.selected.ids <==> IsSelected(p, id)
  {
    hide CensusOf, DeclaredOnce, SelectionsValid, RootsValid, SelectionsResolved, BindingsOf, G.Correct, WithinBudget,
         EdgesExceeded, EdgesOf, SelectionReports, RootsReports;
    ProfileClean(i.declarations, d.census, p);
    SelectionsClean(i.declarations, d.census, p);
    RootsClean(i.declarations, d.census, p);
    ContextSettled(i.declarations, p, d);
    ResourcesClean(i, p, d.census);
    hide RootIds, Settled;
    RootsGiveNodes(d.census, p, d.selected);
  }

  lemma RootsGiveNodes(c: Census, p: Profile, s: Selected)
    requires SelectedOf(c, p, s) && s.roots.Some?
    ensures s.nodes.Some?
  {
    ResolvedNodes(c, p, s.ids);
  }

  lemma SelectionListIs(p: Profile, ids: seq<Id>)
    requires forall id :: id in ids <==> IsSelected(p, id)
    ensures SameIds(ids, IdsOf(p.selections, ImplementationSelected))
  {
    forall id ensures id in ids <==> id in IdsOf(p.selections, ImplementationSelected) {
      if IsSelected(p, id) {
        var s :| s in p.selections && s.implementationId == id;
        var k :| 0 <= k < |p.selections| && p.selections[k] == s;
        assert IdsOf(p.selections, ImplementationSelected)[k] == id;
      }
    }
  }

  lemma SameBack(n: seq<Id>, e: seq<G.ProviderEdge>, m: seq<Id>, f: seq<G.ProviderEdge>)
    requires SameIds(n, m) && SameEdges(e, f)
    ensures SameIds(m, n) && SameEdges(f, e)
  {
  }

  /**
   * With settled, correct rows and within budget, the graph stage reports nothing exactly when the supply graph is
   * valid.
   */
  lemma GraphStageClean(i: Input, p: Profile, d: Derived)
    requires SettledInput(i, p, d) && BindingsValid(i.declarations, p) && WithinBudget(p)
    ensures GraphPart(d) == {} <==> GraphValid(p)
    ensures d.analysis.Some? && d.selected.roots.Some?
    ensures GraphPart(d) == {} ==> d.analysis.value.dependencyOrder.Some?
  {
    hide SettledInput, BindingsValid, WithinBudget, Settled, Complete, BindingsOf, G.Correct, EdgesOf, Supply,
         SupplyGood, RootIds, IsSelected, SameIds, SameEdges, GraphReports, FrontierComplete;
    SettledFacts(i, p, d);
    BindingsClean(i.declarations, p, d.context, d.selected.ids);
    EdgesAreSupply(i.declarations, p, d.context, d.bindings);
    SelectionListIs(p, d.selected.ids);
    SameBack(d.selected.ids, EdgesOf(d.bindings.valid), IdsOf(p.selections, ImplementationSelected),
      Supply(p, p.bindings));
    CompleteIds(d.context, p, d.bindings);
    NodesOfInput(i, p, d);
    GraphClean(p, d.selected, d.bindings, d.analysis.value, EdgesOf(d.bindings.valid));
    if SupplyGood(p, d.selected.ids, EdgesOf(d.bindings.valid)) {
      SupplyGoodSame(p, d.selected.ids, EdgesOf(d.bindings.valid), IdsOf(p.selections, ImplementationSelected),
        Supply(p, p.bindings));
    }
    if GraphValid(p) {
      SupplyGoodSame(p, IdsOf(p.selections, ImplementationSelected), Supply(p, p.bindings), d.selected.ids,
        EdgesOf(d.bindings.valid));
    }
  }

  lemma CompleteIds(x: Context, p: Profile, b: Bindings)
    requires BindingsOf(x, p, b)
    ensures forall i :: i in b.complete <==> FrontierComplete(x, p, i)
  {
    hide FrontierComplete, IsValidRow;
  }

  lemma NodesOfInput(i: Input, p: Profile, d: Derived)
    requires SettledInput(i, p, d) && d.selected.nodes.Some?
    ensures |d.selected.nodes.value| == |d.selected.ids|
      && forall k :: 0 <= k < |d.selected.ids| ==> d.selected.nodes.value[k].implementationId == d.selected.ids[k]
  {
    hide CensusOf, SelectedOf, BindingsOf, G.Correct;
    NodesAre(i.declarations, i.allDeclarationsAdmitted, d.census, p, d.selected);
  }

  lemma StagesEmpty(i: Input, p: Profile, d: Derived)
    requires i.profile == Some(p)
    ensures AllReports(i, d) == {} <==>
      && CensusReports(i.declarations) == {} && ResourceReports(d.census, i.observations) == {}
      && ProfileReports(d.census, p) == {}
      && BindingReports(d.context, p, d.selected.ids) == {} && GraphPart(d) == {}
  {
    hide CensusReports, ResourceReports, ProfileReports, BindingReports, GraphReports;
    AllParts(i, d, p);
  }

  lemma InputParts(i: Input, p: Profile, d: Derived)
    requires Admitted(i, p) && Derives(i, d)
    ensures CensusOf(i.declarations, true, d.census)
  {
    hide CensusOf, SelectedOf, BindingsOf, G.Correct;
  }

  /**
   * Sound and complete: an admitted composition is reported on exactly when it is not valid. Without reports
   * its roots have resolved, its graph was built, and a dependency order was found.
   */
  lemma ReportedIffInvalid(i: Input, p: Profile, d: Derived)
    requires Admitted(i, p) && Derives(i, d)
    ensures AllReports(i, d) == {} <==> ValidComposition(i.declarations, p)
    ensures AllReports(i, d) == {} ==>
      d.selected.roots.Some? && d.analysis.Some? && d.analysis.value.dependencyOrder.Some?
  {
    StagesEmpty(i, p, d);
    InputParts(i, p, d);
    hide AllReports, CensusReports, ResourceReports, ProfileReports, BindingReports, Admitted, Derives, CensusOf,
         DeclaredOnce, SelectionsValid,
         RootsValid, BindingsValid, WithinBudget, GraphValid, Settled, RootsResolved, GraphPart, RootIds, BindingsOf,
           G.Correct, IsSelected;
    CensusClean(i.declarations);
    ResourcesClean(i, p, d.census);
    if DeclaredOnce(i.declarations) {
      ProfileClean(i.declarations, d.census, p);
      if SelectionsValid(i.declarations, p) && RootsValid(p) {
        SettledFacts(i, p, d);
        BindingsClean(i.declarations, p, d.context, d.selected.ids);
        if BindingsValid(i.declarations, p) && WithinBudget(p) { GraphStageClean(i, p, d); }
      }
    }
  }
}
