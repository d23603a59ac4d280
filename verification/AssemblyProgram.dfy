/** From a compiled plan to the steps that construct it (prepare-program.ts). */
module AssemblyProgram {
  import opened Sequences
  import opened Text
  import opened Composition
  import opened DeclarationCensus
  import opened ProfileCensus
  import opened SelectedBindings
  import opened SemanticAnalysis
  import opened CompositionValidity
  import G = SelectedGraph

  datatype Injection = Injection(slotId: Id, capabilityId: Id, many: bool, providers: seq<Id>)

  datatype Step = Step(declaration: Declaration, injections: seq<Injection>)

  datatype Root = Root(alias: string, implementationId: Id)

  datatype ProgramInput = ProgramInput(alias: string, declaration: Declaration)

  datatype Program = Program(steps: seq<Step>, roots: seq<Root>, inputs: seq<ProgramInput>)

  ghost predicate Offers(d: Declaration, capabilityId: Id) {
    exists c :: c in d.capabilities && c.capabilityId == capabilityId
  }

  // ---- what a compiled plan guarantees ----

  /** The handles of the preparation: every selected identity with the declaration that was compiled. */
  ghost predicate Handles(byId: map<Id, Declaration>, ds: seq<Declaration>, p: Profile) {
    && (forall id :: IsSelected(p, id) ==> id in byId)
    && forall id :: id in byId ==> byId[id] in ds && byId[id].implementationId == id
  }

  ghost predicate RowFor(plan: Plan, v: (Binding, Slot), id: Id, slotId: Id) {
    v in plan.bindings && v.0.consumer == id && v.0.slotId == slotId
  }

  /** Every slot of every ordered implementation has a row. */
  ghost predicate SlotsBound(plan: Plan, byId: map<Id, Declaration>) {
    forall id, slot ::
      id in plan.dependencyOrder && id in byId && slot in byId[id].slots ==> SlotBound(plan, id, slot.slotId)
  }

  ghost predicate SlotBound(plan: Plan, id: Id, slotId: Id) {
    exists v :: RowFor(plan, v, id, slotId)
  }

  /** Every provider of a row stands before its consumer and offers the capability the row names. */
  ghost predicate ProviderReady(plan: Plan, byId: map<Id, Declaration>, v: (Binding, Slot), provider: Id) {
    && provider in plan.dependencyOrder && provider in byId && Offers(byId[provider], v.1.capabilityId)
    && ComesBefore(plan.dependencyOrder, provider, v.0.consumer)
  }

  ghost predicate ComesBefore(order: seq<Id>, a: Id, b: Id) {
    forall i, j :: 0 <= i < |order| && 0 <= j < |order| && order[i] == a && order[j] == b ==> i < j
  }

  ghost predicate RowsReady(plan: Plan, byId: map<Id, Declaration>) {
    forall v, provider :: v in plan.bindings && provider in v.0.providers ==> ProviderReady(plan, byId, v, provider)
  }

  /** One row for each coordinate. */
  ghost predicate OneRow(rows: seq<(Binding, Slot)>) {
    forall i, j :: 0 <= i < j < |rows| ==> !SameRowCoordinate(rows[i], rows[j])
  }

  ghost predicate DistinctSlots(d: Declaration) {
    forall i, j :: 0 <= i < j < |d.slots| ==> d.slots[i].slotId != d.slots[j].slotId
  }

  ghost predicate Ready(plan: Plan, byId: map<Id, Declaration>) {
    && Distinct(plan.dependencyOrder)
    && (forall id ::
      id in plan.dependencyOrder ==> id in byId && byId[id].implementationId == id && DistinctSlots(byId[id]))
    && OneRow(plan.bindings) && SlotsBound(plan, byId) && RowsReady(plan, byId)
  }

  /** The compiled rows of an implementation fill its slots. */
  lemma SlotIsBound(ds: seq<Declaration>, p: Profile, x: Context, b: Bindings, id: Id, d: Declaration, slot: Slot)
    returns (v: (Binding, Slot))
    requires Settled(ds, p, x) && BindingsOf(x, p, b) && BindingsValid(ds, p) && FrontierComplete(x, p, id)
    requires d in ds && d.implementationId == id && slot in d.slots && IsSelected(p, id)
    ensures v in b.valid && v.0.consumer == id && v.0.slotId == slot.slotId
  {
    var rows := RowsOfConsumer(p, id);
    assert AllSupplied(p, d);
    var row :| row in p.bindings && row.consumer == id && row.slotId == slot.slotId;
    Known(ds, p, x, id);
    SlotKnown(ds, p, x, d, slot.slotId);
    MatchingMember(p.bindings, ConsumerOf, id, row);
    InSlotIds(rows, row);
    assert SlotFilled(x, DeclaredOf(d), rows, slot.slotId);
    var first := At(rows, slot.slotId)[0];
    MatchingMember(rows, BoundSlot, slot.slotId, first);
    MatchingMember(p.bindings, ConsumerOf, id, first);
    v := (first, slot);
    hide Settled, BindingsValid, Matching, RecordValid;
    assert IsValidRow(x, p, v);
  }

  lemma RowProvider(p: Profile, x: Context, b: Bindings, v: (Binding, Slot), q: Id)
    requires BindingsOf(x, p, b) && v in b.valid && q in v.0.providers
    ensures ProviderValid(x, v.0, v.1, q)
  {
    var rows := RowsOfConsumer(p, v.0.consumer);
    hide Matching, ProviderValid;
    assert IsValidRow(x, p, v);
    MatchingMember(rows, BoundSlot, v.0.slotId, v.0);
    assert At(rows, v.0.slotId)[0] == v.0;
  }

  lemma OffersIt(ds: seq<Declaration>, p: Profile, x: Context, v: (Binding, Slot), q: Id, d: Declaration)
    requires Settled(ds, p, x) && d in ds && d.implementationId == q && ProviderValid(x, v.0, v.1, q)
    ensures q in x.selected && Offers(d, v.1.capabilityId)
  {
    Known(ds, p, x, q);
    LookOnce(d.capabilities, CapabilityIdOf, v.1.capabilityId);
    hide Matching, Complete, Indexed, OnceIn;
    var c := Look(DeclaredOf(d).capabilities, v.1.capabilityId).value;
    assert c in d.capabilities && CapabilityIdOf(c) == v.1.capabilityId;
  }

  /** A provider of a compiled row is selected, offers the capability, and is an edge of the graph. */
  lemma ProviderOfRow(ds: seq<Declaration>, p: Profile, x: Context, b: Bindings, v: (Binding, Slot), q: Id,
                      d: Declaration)
    requires Settled(ds, p, x)
    requires BindingsOf(x, p, b)
    requires v in b.valid
    requires q in v.0.providers
    requires d in ds
    requires d.implementationId == q
    ensures q in x.selected && Offers(d, v.1.capabilityId) && (q, v.0.consumer) in EdgesOf(b.valid)
  {
    hide *;
    RowProvider(p, x, b, v, q);
    OffersIt(ds, p, x, v, q, d);
    EdgesAre(b.valid, (q, v.0.consumer));
  }

  lemma OrderOf(nodes: seq<Id>, edges: seq<G.ProviderEdge>, order: seq<Id>, a: Id, b: Id)
    requires G.DependencyOrder(nodes, edges, order) && (a, b) in edges
    ensures ComesBefore(order, a, b)
  {
  }

  /** A plan compiled from a valid composition can be carried out by the handles it was compiled from. */
  lemma CompiledIsReady(i: Input, p: Profile, d: Derived, plan: Plan, byId: map<Id, Declaration>)
    requires Admitted(i, p)
    requires Derives(i, d)
    requires ValidComposition(i.declarations, p)
    requires PlanFrom(i, d, plan)
    requires Handles(byId, i.declarations, p)
    ensures Ready(plan, byId) && (forall id :: id in plan.dependencyOrder <==> IsSelected(p, id))
  {
    hide Admitted, Derives, Handles, Settled, BindingsOf, G.LeastDependencyOrder, EdgesOf, IsSelected, DeclaredOnce,
         SelectionsValid, RootsValid, BindingsValid, WithinBudget,
         GraphValid, RootIds, FrontierComplete, Offers, ComesBefore, Complete, G.Correct, BindingReports, OneRow,
           DistinctSlots;
    var ds, ids, order := i.declarations, d.selected.ids, d.analysis.value.dependencyOrder.value;
    SettledFacts(i, p, d);
    BindingsClean(ds, p, d.context, ids);
    SelectedIds(i, p, d);
    OrderFacts(ids, EdgesOf(d.bindings.valid), RootsOr(d.selected.roots), d.analysis.value);
    forall id ensures id in order <==> IsSelected(p, id) { }
    forall id | id in order ensures id in byId && byId[id].implementationId == id && byId[id] in ds {
      HandleOf(byId, ds, p, id);
    }
    forall id, slot | id in order && id in byId && slot in byId[id].slots ensures SlotBound(plan, id, slot.slotId) {
      var v := SlotIsBound(ds, p, d.context, d.bindings, id, byId[id], slot);
      assert RowFor(plan, v, id, slot.slotId);
    }
    forall v, q | v in plan.bindings && q in v.0.providers ensures ProviderReady(plan, byId, v, q) {
      RowSelected(p, d.context, d.bindings, v, q);
      HandleOf(byId, ds, p, q);
      ProviderOfRow(ds, p, d.context, d.bindings, v, q, byId[q]);
      OrderOf(ids, EdgesOf(d.bindings.valid), order, q, v.0.consumer);
    }
    forall id | id in order ensures DistinctSlots(byId[id]) { SlotsOnce(ds, byId[id]); }
    RowsApart(p, d.context, d.bindings);
  }

  lemma SlotsOnce(ds: seq<Declaration>, d: Declaration)
    requires DeclaredOnce(ds) && d in ds
    ensures DistinctSlots(d)
  {
    assert Distinct(IdsOf(d.slots, SlotIdOf));
    forall i, j | 0 <= i < j < |d.slots| ensures d.slots[i].slotId != d.slots[j].slotId {
      assert IdsOf(d.slots, SlotIdOf)[i] != IdsOf(d.slots, SlotIdOf)[j];
    }
  }

  lemma RowsApart(p: Profile, x: Context, b: Bindings)
    requires BindingsOf(x, p, b)
    ensures OneRow(b.valid)
  {
    hide IsValidRow, SortedBy, RowLe, SameRowCoordinate, FrontierComplete;
  }

  lemma OrderFacts(ids: seq<Id>, edges: seq<G.ProviderEdge>, roots: seq<Id>, a: G.Analysis)
    requires G.Correct(ids, edges, roots, a) && a.dependencyOrder.Some? && Distinct(ids)
    ensures G.DependencyOrder(ids, edges, a.dependencyOrder.value) && Distinct(a.dependencyOrder.value)
    ensures forall id :: id in a.dependencyOrder.value <==> id in ids
  {
    hide G.CycleReports, G.LongestWalk, G.RootClosure;
    DistinctPermutation(ids, a.dependencyOrder.value);
    MembersOfMultiset(ids, a.dependencyOrder.value);
  }

  lemma SelectedIds(i: Input, p: Profile, d: Derived)
    requires Admitted(i, p) && Derives(i, d)
    ensures Distinct(d.selected.ids)
  {
    hide CensusOf, BindingsOf, G.Correct;
  }

  lemma HandleOf(byId: map<Id, Declaration>, ds: seq<Declaration>, p: Profile, id: Id)
    requires Handles(byId, ds, p) && IsSelected(p, id)
    ensures id in byId && byId[id] in ds && byId[id].implementationId == id
  {
    hide IsSelected;
  }

  lemma RowSelected(p: Profile, x: Context, b: Bindings, v: (Binding, Slot), q: Id)
    requires BindingsOf(x, p, b) && v in b.valid && q in v.0.providers
    requires forall id :: id in x.selected <==> IsSelected(p, id)
    ensures IsSelected(p, q)
  {
    hide IsSelected, Matching, BindingsOf;
    RowProvider(p, x, b, v, q);
  }

  // ---- preparing a program ----

  /** Entry handles are opaque; their metadata says what they declare and whether they are borrowed inputs. */
  type Handle = int

  datatype Metadata = Metadata(declaration: Declaration, input: bool)

  /** No two handles declare the same implementation. */
  ghost predicate Collected(byEntry: map<Handle, Metadata>, byId: map<Id, Declaration>) {
    && (forall h ::
      h in byEntry ==>
        byEntry[h].declaration.implementationId in byId
          && byId[byEntry[h].declaration.implementationId] == byEntry[h].declaration)
    && forall g, h ::
      g in byEntry && h in byEntry
      && byEntry[g].declaration.implementationId == byEntry[h].declaration.implementationId ==>
        g == h
  }

  /** The handle of a selection is there, and declares the module it is selected for. */
  ghost predicate SelectionMatches(byId: map<Id, Declaration>, s: Selection) {
    s.implementationId in byId && byId[s.implementationId].moduleId == s.moduleId
  }

  ghost function SelectedSet(selections: seq<Selection>): set<Id> {
    set s | s in selections :: s.implementationId
  }

  /** The handles cover the plan's selections exactly. */
  method ValidateSelections(plan: Plan, byId: map<Id, Declaration>) returns (ok: bool)
    ensures ok ==> byId.Keys == SelectedSet(plan.selections) && forall s ::
      s in plan.selections ==> SelectionMatches(byId, s)
    ensures !ok ==>
      |plan.selections| != |byId| || !Distinct(IdsOf(plan.selections, ImplementationSelected)) || exists s ::
        s in plan.selections && !SelectionMatches(byId, s)
  {
    hide SelectedSet, IdsOf, Distinct;
    NoneSelected();
    var selected: set<Id> := {};
    for k := 0 to |plan.selections|
      invariant selected == SelectedSet(plan.selections[..k])
      invariant Distinct(IdsOf(plan.selections[..k], ImplementationSelected)) ==> |selected| == k
    {
      SelectionsMore(plan.selections, k, selected);
      selected := selected + {plan.selections[k].implementationId};
    }
    assert plan.selections[..|plan.selections|] == plan.selections;
    if |plan.selections| != |byId| || |selected| != |byId| { return false; }
    for k := 0 to |plan.selections|
      invariant forall j :: 0 <= j < k ==> SelectionMatches(byId, plan.selections[j])
    {
      var s := plan.selections[k];
      if s.implementationId !in byId || byId[s.implementationId].moduleId != s.moduleId {
        Mismatched(plan, byId, s);
        return false;
      }
    }
    ok := true;
    SelectedInside(plan.selections, byId);
    SubsetCardinality(selected, byId.Keys);
  }

  lemma Mismatched(plan: Plan, byId: map<Id, Declaration>, s: Selection)
    requires s in plan.selections
    requires s.implementationId !in byId || byId[s.implementationId].moduleId != s.moduleId
    ensures exists q :: q in plan.selections && !SelectionMatches(byId, q)
  {
    assert !SelectionMatches(byId, s);
  }

  lemma NoneSelected()
    ensures SelectedSet([]) == {} && IdsOf([], ImplementationSelected) == [] && Distinct<Id>([])
  {
  }

  lemma SelectedInside(selections: seq<Selection>, byId: map<Id, Declaration>)
    requires forall j :: 0 <= j < |selections| ==> SelectionMatches(byId, selections[j])
    ensures SelectedSet(selections) <= byId.Keys && forall s :: s in selections ==> SelectionMatches(byId, s)
    ensures |byId.Keys| == |byId|
  {
  }

  lemma SelectionsMore(selections: seq<Selection>, k: nat, selected: set<Id>)
    requires k < |selections| && selected == SelectedSet(selections[..k])
    ensures selected + {selections[k].implementationId} == SelectedSet(selections[..k + 1])
    ensures Distinct(IdsOf(selections[..k + 1], ImplementationSelected)) ==>
      Distinct(IdsOf(selections[..k], ImplementationSelected)) && selections[k].implementationId !in selected
  {
    var front, last := selections[..k], selections[k];
    assert selections[..k + 1] == front + [last];
    assert IdsOf(front + [last], ImplementationSelected) ==
      IdsOf(front, ImplementationSelected) + [last.implementationId];
    if Distinct(IdsOf(selections[..k + 1], ImplementationSelected)) {
      DistinctParts(IdsOf(front, ImplementationSelected), [last.implementationId]);
      assert last.implementationId in [last.implementationId];
      forall s | s in front ensures s.implementationId != last.implementationId {
        var j :| 0 <= j < |front| && front[j] == s;
        assert IdsOf(front, ImplementationSelected)[j] == s.implementationId;
      }
    }
  }

  /** The root handle at an alias: known, not borrowed, and of a module the plan has as a root. */
  ghost predicate RootBinds(plan: Plan, byEntry: map<Handle, Metadata>, entry: Option<Handle>) {
    entry.Some? && entry.value in byEntry && !byEntry[entry.value].input
      && byEntry[entry.value].declaration.moduleId in plan.roots
  }

  ghost predicate RootsBind(aliases: seq<(string, Option<Handle>)>, plan: Plan, byEntry: map<Handle, Metadata>) {
    && |aliases| == |plan.roots| && Distinct(plan.roots)
    && (forall k :: 0 <= k < |aliases| ==> RootBinds(plan, byEntry, aliases[k].1))
    && forall j, k :: 0 <= j < k < |aliases| ==> aliases[j].1 != aliases[k].1
  }

  method BindRoots(aliases: seq<(string, Option<Handle>)>, plan: Plan, byEntry: map<Handle, Metadata>)
    returns (r: Option<seq<Root>>)
    ensures r.Some? <==> RootsBind(aliases, plan, byEntry)
    ensures r.Some? ==> |r.value| == |aliases| && forall k :: 0 <= k < |aliases| ==>
      r.value[k] == Root(aliases[k].0, byEntry[aliases[k].1.value].declaration.implementationId)
  {
    var rootIds := set m | m in plan.roots;
    assert rootIds == Elements(plan.roots);
    RootCount(plan.roots);
    if |aliases| != |plan.roots| || |rootIds| != |plan.roots| { return None; }
    var roots: seq<Root> := [];
    var seen: set<Handle> := {};
    for k := 0 to |aliases|
      invariant |roots| == k && seen == set j | 0 <= j < k && aliases[j].1.Some? :: aliases[j].1.value
      invariant forall j ::
        0 <= j < k ==>
          RootBinds(plan, byEntry, aliases[j].1)
            && roots[j] == Root(aliases[j].0, byEntry[aliases[j].1.value].declaration.implementationId)
      invariant forall i, j :: 0 <= i < j < k ==> aliases[i].1 != aliases[j].1
    {
      var entry := aliases[k].1;
      if entry.None? || entry.value !in byEntry || byEntry[entry.value].input { return None; }
      if byEntry[entry.value].declaration.moduleId !in rootIds { return None; }
      if entry.value in seen {
        var j :| 0 <= j < k && aliases[j].1.Some? && aliases[j].1.value == entry.value;
        assert aliases[j].1 == aliases[k].1;
        return None;
      }
      seen := seen + {entry.value};
      roots := roots + [Root(aliases[k].0, byEntry[entry.value].declaration.implementationId)];
    }
    r := Some(roots);
  }

  lemma {:induction false} RootCount(roots: seq<Id>)
    ensures |Elements(roots)| == |roots| <==> Distinct(roots)
    ensures |Elements(roots)| <= |roots|
  {
    if roots != [] {
      RootCount(roots[1..]);
      assert Elements(roots) == {roots[0]} + Elements(roots[1..]);
      if Distinct(roots) { assert roots[0] !in roots[1..]; }
      if |Elements(roots)| == |roots| {
        assert roots[0] !in Elements(roots[1..]);
        forall i, j | 0 <= i < j < |roots| ensures roots[i] != roots[j] {
          assert roots[j] == roots[1..][j - 1];
          if i > 0 { assert roots[i] == roots[1..][i - 1]; }
        }
      }
    }
  }

  /** The modules of the bound roots are the plan's roots, each once. */
  lemma RootsCover(aliases: seq<(string, Option<Handle>)>, plan: Plan, byEntry: map<Handle, Metadata>, modules: seq<Id>)
    requires RootsBind(aliases, plan, byEntry) && |modules| == |aliases|
    requires forall k :: 0 <= k < |aliases| ==> modules[k] == byEntry[aliases[k].1.value].declaration.moduleId
    requires forall g, h ::
      g in byEntry && h in byEntry && byEntry[g].declaration.moduleId == byEntry[h].declaration.moduleId ==> g == h
    ensures multiset(modules) == multiset(plan.roots)
  {
    forall j, k | 0 <= j < k < |modules| ensures modules[j] != modules[k] {
      assert RootBinds(plan, byEntry, aliases[j].1) && RootBinds(plan, byEntry, aliases[k].1);
      var g, h := aliases[j].1.value, aliases[k].1.value;
      assert aliases[j].1 == Some(g) && aliases[k].1 == Some(h) && aliases[j].1 != aliases[k].1;
      assert modules[j] == byEntry[g].declaration.moduleId && modules[k] == byEntry[h].declaration.moduleId;
    }
    forall m | m in Elements(modules) ensures m in Elements(plan.roots) {
      var k :| 0 <= k < |modules| && modules[k] == m;
      assert RootBinds(plan, byEntry, aliases[k].1);
    }
    DistinctCardinality(modules);
    DistinctCardinality(plan.roots);
    SubsetCardinality(Elements(modules), Elements(plan.roots));
    forall m ensures m in modules <==> m in plan.roots { assert m in Elements(modules) <==> m in Elements(plan.roots); }
    SameElementsPermute(modules, plan.roots);
  }

  // ---- the program ----

  type Rows = map<(Id, Id), (Binding, Slot)>

  /** The row of each coordinate. */
  method IndexRows(rows: seq<(Binding, Slot)>) returns (index: Rows)
    ensures forall c :: c in index ==> index[c] in rows && (index[c].0.consumer, index[c].0.slotId) == c
    ensures forall v :: v in rows ==> (v.0.consumer, v.0.slotId) in index
  {
    index := map[];
    for k := 0 to |rows|
      invariant forall c :: c in index ==> index[c] in rows && (index[c].0.consumer, index[c].0.slotId) == c
      invariant forall j :: 0 <= j < k ==> (rows[j].0.consumer, rows[j].0.slotId) in index
    {
      index := index[(rows[k].0.consumer, rows[k].0.slotId) := rows[k]];
    }
  }

  ghost predicate InjectionFrom(plan: Plan, id: Id, slot: Slot, injection: Injection) {
    exists v ::
      RowFor(plan, v, id, slot.slotId)
        && injection == Injection(slot.slotId, v.1.capabilityId, slot.bounds.Many?, v.0.providers)
  }

  /** A step constructs one implementation, with one injection for each slot it declares. */
  ghost predicate StepFrom(plan: Plan, byId: map<Id, Declaration>, id: Id, step: Step) {
    && id in byId && step.declaration == byId[id] && |step.injections| == |byId[id].slots|
    && forall j :: 0 <= j < |step.injections| ==> InjectionFrom(plan, id, byId[id].slots[j], step.injections[j])
  }

  ghost predicate StepsFrom(plan: Plan, byId: map<Id, Declaration>, steps: seq<Step>) {
    |steps| <= |plan.dependencyOrder|
      && forall k :: 0 <= k < |steps| ==> StepFrom(plan, byId, plan.dependencyOrder[k], steps[k])
  }

  ghost predicate Constructible(plan: Plan, byId: map<Id, Declaration>) {
    (forall id :: id in plan.dependencyOrder ==> id in byId) && SlotsBound(plan, byId)
  }

  ghost predicate AllBound(plan: Plan, byId: map<Id, Declaration>, id: Id) {
    id in byId && forall slot :: slot in byId[id].slots ==> SlotBound(plan, id, slot.slotId)
  }

  method CreateStep(plan: Plan, byId: map<Id, Declaration>, index: Rows, id: Id) returns (r: Option<Step>)
    requires forall c :: c in index ==> index[c] in plan.bindings && (index[c].0.consumer, index[c].0.slotId) == c
    requires forall v :: v in plan.bindings ==> (v.0.consumer, v.0.slotId) in index
    ensures r.Some? <==> AllBound(plan, byId, id)
    ensures r.Some? ==> StepFrom(plan, byId, id, r.value)
  {
    if id !in byId { return None; }
    var d := byId[id];
    var injections: seq<Injection> := [];
    for j := 0 to |d.slots|
      invariant |injections| == j
      invariant forall k ::
        0 <= k < j ==> InjectionFrom(plan, id, d.slots[k], injections[k]) && SlotBound(plan, id, d.slots[k].slotId)
    {
      var slot := d.slots[j];
      if (id, slot.slotId) !in index { return None; }
      var row := index[(id, slot.slotId)];
      assert RowFor(plan, row, id, slot.slotId);
      injections := injections + [Injection(slot.slotId, row.1.capabilityId, slot.bounds.Many?, row.0.providers)];
    }
    r := Some(Step(d, injections));
  }

  /**
   * The program follows the dependency order; it is refused exactly when an implementation or a slot has nothing
   * to go with it.
   */
  method CreateProgram(plan: Plan, roots: seq<Root>, inputs: seq<ProgramInput>, byId: map<Id, Declaration>)
    returns (r: Option<Program>)
    ensures r.Some? <==> Constructible(plan, byId)
    ensures r.Some? ==> r.value.roots == roots && r.value.inputs == inputs
    ensures r.Some? ==> |r.value.steps| == |plan.dependencyOrder| && StepsFrom(plan, byId, r.value.steps)
  {
    hide StepFrom, SlotBound;
    var index := IndexRows(plan.bindings);
    var steps: seq<Step> := [];
    for k := 0 to |plan.dependencyOrder|
      invariant |steps| == k && StepsFrom(plan, byId, steps)
      invariant forall j :: 0 <= j < k ==> AllBound(plan, byId, plan.dependencyOrder[j])
    {
      var step := CreateStep(plan, byId, index, plan.dependencyOrder[k]);
      if step.None? { return None; }
      steps := steps + [step.value];
    }
    r := Some(Program(steps, roots, inputs));
  }

  // ---- programs that can run ----

  /** Every provider an injection will ask for has been constructed by an earlier step and offers the capability. */
  ghost predicate ProviderEarlier(steps: seq<Step>, k: nat, capabilityId: Id, provider: Id)
    requires k <= |steps|
  {
    exists j ::
      0 <= j < k && steps[j].declaration.implementationId == provider && Offers(steps[j].declaration, capabilityId)
  }

  ghost predicate InjectionReady(steps: seq<Step>, k: nat, injection: Injection)
    requires k <= |steps|
  {
    forall q :: q in injection.providers ==> ProviderEarlier(steps, k, injection.capabilityId, q)
  }

  ghost predicate DistinctSteps(steps: seq<Step>) {
    forall j, k ::
      0 <= j < k < |steps| ==> steps[j].declaration.implementationId != steps[k].declaration.implementationId
  }

  ghost predicate StepsReady(steps: seq<Step>) {
    forall k, i ::
      0 <= k < |steps| && 0 <= i < |steps[k].injections| ==> InjectionReady(steps, k, steps[k].injections[i])
  }

  ghost predicate Constructs(steps: seq<Step>, id: Id) {
    exists k :: 0 <= k < |steps| && steps[k].declaration.implementationId == id
  }

  /** Borrowed inputs stand for steps of the program, each once, with the same declaration. */
  ghost predicate InputsMatch(program: Program) {
    && (forall m :: 0 <= m < |program.inputs| ==> program.inputs[m].declaration in DeclarationsOf(program.steps))
    && DistinctInputs(program.inputs)
  }

  predicate InputsDiffer(a: ProgramInput, b: ProgramInput) {
    a.declaration.implementationId != b.declaration.implementationId && a.alias != b.alias
  }

  ghost predicate DistinctInputs(inputs: seq<ProgramInput>) {
    forall l, m :: 0 <= l < m < |inputs| ==> InputsDiffer(inputs[l], inputs[m])
  }

  ghost function DeclarationsOf(steps: seq<Step>): seq<Declaration> {
    seq(|steps|, k requires 0 <= k < |steps| => steps[k].declaration)
  }

  ghost predicate Runnable(program: Program) {
    && DistinctSteps(program.steps) && StepsReady(program.steps) && InputsMatch(program)
    && forall r :: r in program.roots ==> Constructs(program.steps, r.implementationId)
  }

  lemma InjectionIsReady(plan: Plan, byId: map<Id, Declaration>, steps: seq<Step>, k: nat, i: nat)
    requires Ready(plan, byId)
    requires StepsFrom(plan, byId, steps)
    requires |steps| == |plan.dependencyOrder|
    requires k < |steps|
    requires i < |steps[k].injections|
    ensures InjectionReady(steps, k, steps[k].injections[i])
  {
    var order, id := plan.dependencyOrder, plan.dependencyOrder[k];
    assert StepFrom(plan, byId, id, steps[k]);
    assert InjectionFrom(plan, id, byId[id].slots[i], steps[k].injections[i]);
    var v :|
      RowFor(plan, v, id, byId[id].slots[i].slotId)
        && steps[k].injections[i] ==
          Injection(byId[id].slots[i].slotId, v.1.capabilityId, byId[id].slots[i].bounds.Many?, v.0.providers);
    hide Offers, OneRow, DistinctSlots, SlotsBound, InjectionFrom;
    forall q | q in v.0.providers ensures ProviderEarlier(steps, k, v.1.capabilityId, q) {
      assert ProviderReady(plan, byId, v, q);
      var j :| 0 <= j < |order| && order[j] == q;
      assert ComesBefore(order, q, id) && order[k] == id;
      assert StepFrom(plan, byId, order[j], steps[j]);
    }
  }

  /** A program made from a ready plan, with bound roots and inputs, can run. */
  lemma ProgramIsRunnable(plan: Plan, byId: map<Id, Declaration>, program: Program)
    requires Ready(plan, byId) && StepsFrom(plan, byId, program.steps) && |program.steps| == |plan.dependencyOrder|
    requires forall r :: r in program.roots ==> r.implementationId in plan.dependencyOrder
    requires forall m :: 0 <= m < |program.inputs| ==>
      program.inputs[m].declaration.implementationId in plan.dependencyOrder
        && byId[program.inputs[m].declaration.implementationId] == program.inputs[m].declaration
    requires DistinctInputs(program.inputs)
    ensures Runnable(program)
  {
    var steps, order := program.steps, plan.dependencyOrder;
    forall k | 0 <= k < |steps|
      ensures steps[k].declaration == byId[order[k]] && steps[k].declaration.implementationId == order[k] {
      assert StepFrom(plan, byId, order[k], steps[k]);
    }
    forall k, i | 0 <= k < |steps| && 0 <= i < |steps[k].injections|
      ensures InjectionReady(steps, k, steps[k].injections[i]) {
      InjectionIsReady(plan, byId, steps, k, i);
    }
    hide StepsFrom, OneRow, SlotsBound, RowsReady, DistinctSlots, InjectionReady;
    forall m | 0 <= m < |program.inputs| ensures program.inputs[m].declaration in DeclarationsOf(steps) {
      var k :| 0 <= k < |order| && order[k] == program.inputs[m].declaration.implementationId;
      assert DeclarationsOf(steps)[k] == program.inputs[m].declaration;
    }
    forall r | r in program.roots ensures Constructs(steps, r.implementationId) {
      var k :| 0 <= k < |order| && order[k] == r.implementationId;
    }
  }

  // ---- from the plan to the program ----

  /** The order of the plan is over exactly its selections. */
  ghost predicate OrdersSelections(plan: Plan) {
    forall id :: id in plan.dependencyOrder <==> id in SelectedSet(plan.selections)
  }

  lemma CompiledOrders(i: Input, p: Profile, d: Derived, plan: Plan)
    requires PlanFrom(i, d, plan) && i.profile == Some(p)
      && forall id :: id in plan.dependencyOrder <==> IsSelected(p, id)
    ensures OrdersSelections(plan)
  {
    SortContents(SelectionLe, p.selections);
    MembersOfMultiset(plan.selections, p.selections);
    hide Sort;
    forall id ensures id in SelectedSet(plan.selections) <==> IsSelected(p, id) {
      if id in SelectedSet(plan.selections) { var s :| s in plan.selections && s.implementationId == id; }
      if IsSelected(p, id) { var s :| s in p.selections && s.implementationId == id; assert s in plan.selections; }
    }
  }

  ghost predicate InputsKnown(inputs: seq<ProgramInput>, byId: map<Id, Declaration>) {
    && DistinctInputs(inputs)
    && forall m ::
      0 <= m < |inputs| ==>
        inputs[m].declaration.implementationId in byId
          && byId[inputs[m].declaration.implementationId] == inputs[m].declaration
  }

  /**
   * Selections, roots and steps of a program. With a plan that is ready for these handles, a program is refused
   * only for handles or roots that do not match the plan, and every program that results can run.
   */
  method PrepareProgram(plan: Plan, aliases: seq<(string, Option<Handle>)>, inputs: seq<ProgramInput>,
                        byEntry: map<Handle, Metadata>, byId: map<Id, Declaration>)
    returns (r: Option<Program>)
    requires Collected(byEntry, byId) && InputsKnown(inputs, byId)
    ensures r.Some? ==>
      Constructible(plan, byId) && RootsBind(aliases, plan, byEntry) && byId.Keys == SelectedSet(plan.selections)
    ensures r.Some? ==> |r.value.steps| == |plan.dependencyOrder| && StepsFrom(plan, byId, r.value.steps)
    ensures r.Some? && Ready(plan, byId) && OrdersSelections(plan) ==> Runnable(r.value)
  {
    hide Collected, InputsKnown, Constructible, RootsBind, SelectedSet, StepsFrom, Ready, OrdersSelections, Runnable;
    var covered := ValidateSelections(plan, byId);
    if !covered { return None; }
    var roots := BindRoots(aliases, plan, byEntry);
    if roots.None? { return None; }
    r := CreateProgram(plan, roots.value, inputs, byId);
    if r.Some? && Ready(plan, byId) && OrdersSelections(plan) {
      Prepared(plan, aliases, byEntry, byId, r.value);
    }
  }

  lemma Prepared(plan: Plan, aliases: seq<(string, Option<Handle>)>, byEntry: map<Handle, Metadata>,
                 byId: map<Id, Declaration>, program: Program)
    requires Collected(byEntry, byId)
    requires InputsKnown(program.inputs, byId)
    requires Ready(plan, byId)
    requires OrdersSelections(plan)
    requires byId.Keys == SelectedSet(plan.selections) && RootsBind(aliases, plan, byEntry)
    requires StepsFrom(plan, byId, program.steps) && |program.steps| == |plan.dependencyOrder|
    requires |program.roots| == |aliases| && forall k :: 0 <= k < |aliases| ==>
      program.roots[k] == Root(aliases[k].0, byEntry[aliases[k].1.value].declaration.implementationId)
    ensures Runnable(program)
  {
    hide Ready, StepsFrom, SelectedSet, Runnable;
    forall r | r in program.roots ensures r.implementationId in plan.dependencyOrder {
      var k :| 0 <= k < |aliases| && program.roots[k] == r;
      assert RootBinds(plan, byEntry, aliases[k].1);
      var h := aliases[k].1.value;
      assert h in byEntry && r.implementationId == byEntry[h].declaration.implementationId;
      assert r.implementationId in byId;
      assert r.implementationId in byId.Keys;
    }
    forall m | 0 <= m < |program.inputs|
      ensures program.inputs[m].declaration.implementationId in plan.dependencyOrder {
      assert program.inputs[m].declaration.implementationId in byId;
      assert program.inputs[m].declaration.implementationId in byId.Keys;
    }
    ProgramIsRunnable(plan, byId, program);
  }

  /** A program prepared from the plan of a valid composition can run. */
  lemma CompiledProgramsRun(i: Input, p: Profile, d: Derived, plan: Plan, aliases: seq<(string, Option<Handle>)>,
                            byEntry: map<Handle, Metadata>,
                            byId: map<Id, Declaration>, program: Program)
    requires Admitted(i, p)
    requires Derives(i, d)
    requires ValidComposition(i.declarations, p)
    requires PlanFrom(i, d, plan)
    requires Handles(byId, i.declarations, p)
    requires Collected(byEntry, byId) && InputsKnown(program.inputs, byId)
    requires byId.Keys == SelectedSet(plan.selections) && RootsBind(aliases, plan, byEntry)
    requires StepsFrom(plan, byId, program.steps) && |program.steps| == |plan.dependencyOrder|
    requires |program.roots| == |aliases| && forall k :: 0 <= k < |aliases| ==>
      program.roots[k] == Root(aliases[k].0, byEntry[aliases[k].1.value].declaration.implementationId)
    ensures Runnable(program)
  {
    ProfileOf(i, p);
    hide *;
    CompiledIsReady(i, p, d, plan, byId);
    CompiledOrders(i, p, d, plan);
    Prepared(plan, aliases, byEntry, byId, program);
  }

  lemma ProfileOf(i: Input, p: Profile)
    requires Admitted(i, p)
    ensures i.profile == Some(p)
  {
  }
}
