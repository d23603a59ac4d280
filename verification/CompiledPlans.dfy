/** What a compiled plan says of the profile it was compiled from (semantic-analysis.ts). */
module CompiledPlans {
  import opened Sequences
  import opened Text
  import opened Composition
  import opened Candidates
  import opened DeclarationCensus
  import opened ProfileCensus
  import opened SelectedBindings
  import opened GraphResources
  import opened SemanticAnalysis
  import opened CompositionValidity
  import G = SelectedGraph

  /** The roots of the profile, each once, in order. */
  ghost predicate RootsListed(p: Profile, roots: seq<Id>) {
    && multiset(roots) == multiset(p.roots)
    && forall i, j :: 0 <= i < j < |roots| ==> TextLess(roots[i], roots[j])
  }

  /** The selections of the profile, in the order of their modules, which are all different. */
  ghost predicate SelectionsListed(p: Profile, selections: seq<Selection>) {
    && multiset(selections) == multiset(p.selections)
    && forall i, j :: 0 <= i < j < |selections| ==> TextLess(selections[i].moduleId, selections[j].moduleId)
  }

  /** The slot is one that the consumer of the row declares, with the name that the row gives. */
  ghost predicate DeclaresSlot(ds: seq<Declaration>, b: Binding, slot: Slot) {
    exists d :: d in ds && d.implementationId == b.consumer && slot in d.slots && slot.slotId == b.slotId
  }

  ghost predicate RowBefore(a: Binding, b: Binding) {
    TextLess(a.consumer, b.consumer) || (a.consumer == b.consumer && TextLess(a.slotId, b.slotId))
  }

  /** The rows of the selected consumers, each once and with its slot, by consumer and slot. */
  ghost predicate RowsPlanned(ds: seq<Declaration>, p: Profile, rows: seq<(Binding, Slot)>) {
    && (forall v :: v in rows ==> v.0 in p.bindings && IsSelected(p, v.0.consumer) && DeclaresSlot(ds, v.0, v.1))
    && (forall b :: b in p.bindings && IsSelected(p, b.consumer) ==> exists v :: v in rows && v.0 == b)
    && (forall i, j :: 0 <= i < j < |rows| ==> RowBefore(rows[i].0, rows[j].0))
  }

  /** The plan of a profile: nothing of it is lost, and every list has the one order that it can have. */
  ghost predicate PlanMeans(ds: seq<Declaration>, p: Profile, plan: Plan) {
    && plan.profileId == p.profileId && RootsListed(p, plan.roots) && SelectionsListed(p, plan.selections)
    && RowsPlanned(ds, p, plan.bindings)
    && G.LeastDependencyOrder(IdsOf(p.selections, ImplementationSelected), Supply(p, p.bindings), plan.dependencyOrder)
  }

  lemma RootsSorted(p: Profile)
    requires Distinct(p.roots)
    ensures RootsListed(p, Sort(TextLe, p.roots))
  {
    TextOrder();
    SortCorrect(TextLe, p.roots);
    var s := Sort(TextLe, p.roots);
    DistinctPermutation(p.roots, s);
    hide Sort;
    forall i, j | 0 <= i < j < |s| ensures TextLess(s[i], s[j]) {
      assert TextLe(s[i], s[j]) && s[i] != s[j];
      TextTrichotomy(s[i], s[j]);
    }
  }

  lemma SelectionsSorted(p: Profile)
    requires Distinct(IdsOf(p.selections, SelectedModule))
    ensures SelectionsListed(p, Sort(SelectionLe, p.selections))
  {
    SelectionOrder();
    SortCorrect(SelectionLe, p.selections);
    var s := Sort(SelectionLe, p.selections);
    ModulesApart(p.selections, s);
    hide Sort, TotalPreorder;
    forall i, j | 0 <= i < j < |s| ensures TextLess(s[i].moduleId, s[j].moduleId) {
      assert SelectionLe(s[i], s[j]) && s[i].moduleId != s[j].moduleId;
      TextTrichotomy(s[i].moduleId, s[j].moduleId);
    }
  }

  lemma SelectionOrder()
    ensures TotalPreorder(SelectionLe)
  {
    TextOrder();
  }

  /** Rearranging selections of different modules keeps their modules different. */
  lemma ModulesApart(a: seq<Selection>, b: seq<Selection>)
    requires Distinct(IdsOf(a, SelectedModule)) && multiset(a) == multiset(b)
    ensures forall i, j :: 0 <= i < j < |b| ==> b[i].moduleId != b[j].moduleId
  {
    forall i, j | 0 <= i < j < |a| ensures a[i].moduleId != a[j].moduleId {
      assert IdsOf(a, SelectedModule)[i] != IdsOf(a, SelectedModule)[j];
    }
    DistinctPermutation(a, b);
    MembersOfMultiset(a, b);
    forall i, j | 0 <= i < j < |b| ensures b[i].moduleId != b[j].moduleId {
      assert b[i] in a && b[j] in a;
    }
  }

  lemma PlannedRows(ds: seq<Declaration>, p: Profile, x: Context, b: Bindings)
    requires Settled(ds, p, x) && BindingsOf(x, p, b) && forall i :: i in x.selected ==> FrontierComplete(x, p, i)
    ensures RowsPlanned(ds, p, b.valid)
  {
    hide Complete, FrontierComplete, IsValidRow, IsSelected, DeclaresSlot;
    forall v | v in b.valid ensures v.0 in p.bindings && IsSelected(p, v.0.consumer) && DeclaresSlot(ds, v.0, v.1) {
      ValidRowIs(ds, p, x, v);
      SlotOfRow(ds, p, x, v);
    }
    forall r | r in p.bindings && IsSelected(p, r.consumer) ensures exists v :: v in b.valid && v.0 == r {
      var slot := RowIsValid(ds, p, x, r);
      assert (r, slot) in b.valid;
    }
    forall i, j | 0 <= i < j < |b.valid| ensures RowBefore(b.valid[i].0, b.valid[j].0) {
      assert RowLe(b.valid[i], b.valid[j]) && !SameRowCoordinate(b.valid[i], b.valid[j]);
      TextTrichotomy(b.valid[i].0.slotId, b.valid[j].0.slotId);
    }
  }

  lemma SlotOfRow(ds: seq<Declaration>, p: Profile, x: Context, v: (Binding, Slot))
    requires Settled(ds, p, x) && IsValidRow(x, p, v)
    ensures DeclaresSlot(ds, v.0, v.1)
  {
    Known(ds, p, x, v.0.consumer);
    hide Complete, SlotFilled;
    var d :| d in ds && d.implementationId == v.0.consumer;
    SlotKnown(ds, p, x, d, v.0.slotId);
  }

  lemma LeastSame(n: seq<Id>, e: seq<G.ProviderEdge>, m: seq<Id>, f: seq<G.ProviderEdge>, order: seq<Id>)
    requires multiset(n) == multiset(m) && SameEdges(e, f) && G.LeastDependencyOrder(n, e, order)
    ensures G.LeastDependencyOrder(m, f, order)
  {
    forall other: seq<Id> ensures G.DependencyOrder(n, e, other) <==> G.DependencyOrder(m, f, other) {}
    hide G.DependencyOrder, G.IdLexLe;
  }

  /** Different modules have different implementations, so the selected ones are each selected once. */
  lemma SelectedOnce(ds: seq<Declaration>, p: Profile)
    requires DeclaredOnce(ds) && SelectionsValid(ds, p)
    ensures Distinct(IdsOf(p.selections, ImplementationSelected))
  {
    var ids := IdsOf(p.selections, ImplementationSelected);
    forall i, j | 0 <= i < j < |ids| ensures ids[i] != ids[j] {
      if ids[i] == ids[j] { SameModule(ds, p, i, j); }
    }
  }

  lemma SameModule(ds: seq<Declaration>, p: Profile, i: nat, j: nat)
    requires DeclaredOnce(ds) && SelectionsValid(ds, p) && i < j < |p.selections|
    ensures p.selections[i].implementationId != p.selections[j].implementationId
  {
    var a, b := p.selections[i], p.selections[j];
    assert IdsOf(p.selections, SelectedModule)[i] != IdsOf(p.selections, SelectedModule)[j];
    assert a in p.selections && b in p.selections;
    var d :| d in ds && d.implementationId == a.implementationId && d.moduleId == a.moduleId;
    var e :| e in ds && e.implementationId == b.implementationId && e.moduleId == b.moduleId;
    var k :| 0 <= k < |ds| && ds[k] == d;
    var l :| 0 <= l < |ds| && ds[l] == e;
    assert k != l;
    assert IdsOf(ds, ImplementationOf)[k] != IdsOf(ds, ImplementationOf)[l];
  }

  lemma SameMembers(a: seq<Id>, b: seq<Id>)
    requires Distinct(a) && Distinct(b) && SameIds(a, b)
    ensures multiset(a) == multiset(b)
  {
    DistinctCounts(a);
    DistinctCounts(b);
    forall x ensures multiset(a)[x] == multiset(b)[x] { assert x in a <==> x in b; }
  }

  lemma {:induction false} DistinctCounts(a: seq<Id>)
    requires Distinct(a)
    ensures forall x :: multiset(a)[x] == if x in a then 1 else 0
  {
    if a != [] {
      DistinctCounts(a[1..]);
      assert a == [a[0]] + a[1..];
    }
  }

  /** A derivation without reports, of an input that was reported on truthfully, with its plan. */
  ghost predicate Clean(i: Input, d: Derived) {
    Truthful(i, []) && Derives(i, d) && AllReports(i, d) == {}
  }

  lemma CleanFacts(i: Input, d: Derived)
    requires Clean(i, d)
    ensures i.profile.Some?
    ensures DeclaredOnce(i.declarations) && SelectionsValid(i.declarations, i.profile.value)
    ensures RootsValid(i.profile.value)
    ensures Settled(i.declarations, i.profile.value, d.context)
    ensures BindingsOf(d.context, i.profile.value, d.bindings)
    ensures forall id :: id in d.context.selected ==> FrontierComplete(d.context, i.profile.value, id)
  {
    var ds, p := i.declarations, i.profile.value;
    StagesEmpty(i, p, d);
    hide AllReports, CensusReports, ProfileReports, BindingReports, CensusOf, DeclaredOnce, RootsResolved, Settled,
         SelectionsValid, RootsValid, SelectionsResolved, BindingsOf, G.Correct, FrontierComplete, ResourceReports,
         GraphPart, RootIds;
    CensusClean(ds);
    ProfileClean(ds, d.census, p);
    SelectionsClean(ds, d.census, p);
    ContextSettled(ds, p, d);
    BindingsClean(ds, p, d.context, d.selected.ids);
  }

  lemma OrderOfPlan(i: Input, d: Derived, plan: Plan)
    requires Clean(i, d) && PlanFrom(i, d, plan)
    ensures var p := i.profile.value;
      G.LeastDependencyOrder(IdsOf(p.selections, ImplementationSelected), Supply(p, p.bindings), plan.dependencyOrder)
  {
    var ds, p, edges := i.declarations, i.profile.value, EdgesOf(d.bindings.valid);
    CleanFacts(i, d);
    hide AllReports, CensusOf, DeclaredOnce, RootsResolved, Settled, SelectionsValid, RootsValid, BindingsOf,
         FrontierComplete, RootIds, EdgesOf, Supply, G.LeastDependencyOrder, G.CycleReports, G.LongestWalk,
         G.RootClosure;
    SelectedOnce(ds, p);
    SelectionListIs(p, d.selected.ids);
    SameMembers(d.selected.ids, IdsOf(p.selections, ImplementationSelected));
    EdgesAreSupply(ds, p, d.context, d.bindings);
    LeastSame(d.selected.ids, edges, IdsOf(p.selections, ImplementationSelected), Supply(p, p.bindings),
      plan.dependencyOrder);
  }

  /** The plan of a composition that nothing was reported on is the plan of its profile. */
  lemma PlanIs(i: Input, d: Derived, plan: Plan)
    requires Clean(i, d) && PlanFrom(i, d, plan)
    ensures PlanMeans(i.declarations, i.profile.value, plan)
  {
    var p := i.profile.value;
    OrderOfPlan(i, d, plan);
    CleanFacts(i, d);
    hide Clean, DeclaredOnce, Settled, BindingsOf, FrontierComplete, RootsListed, SelectionsListed, RowsPlanned, Supply,
         G.LeastDependencyOrder, Sort;
    RootsSorted(p);
    SelectionsSorted(p);
    PlannedRows(i.declarations, p, d.context, d.bindings);
  }
}
