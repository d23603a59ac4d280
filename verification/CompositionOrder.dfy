/**
 * The order in which things are listed decides nothing (binding-record.ts, profile-census.ts,
 * semantic-analysis.ts).
 */
module CompositionOrder {
  import opened Sequences
  import opened Text
  import opened Composition
  import opened Candidates
  import opened DeclarationCensus
  import opened ProfileCensus
  import opened SelectedBindings
  import opened GraphResources
  import opened SemanticAnalysis
  import opened CompositionValidity
  import opened DiagnosticCollector
  import D = DiagnosticOrder
  import G = SelectedGraph

  /** A declaration up to the order of what it provides and of its slots. */
  datatype Shape = Shape(moduleId: Id, implementationId: Id, capabilities: multiset<Capability>, slots: multiset<Slot>)

  ghost function ShapeOf(d: Declaration): Shape {
    Shape(d.moduleId, d.implementationId, multiset(d.capabilities), multiset(d.slots))
  }

  ghost function Shapes(ds: seq<Declaration>): (r: seq<Shape>)
    ensures |r| == |ds| && forall k :: 0 <= k < |ds| ==> r[k] == ShapeOf(ds[k])
  {
    seq(|ds|, k requires 0 <= k < |ds| => ShapeOf(ds[k]))
  }

  /** Declarations, what they provide, their slots, roots, selections and binding rows, all in any order. */
  ghost predicate Rearranged(ds: seq<Declaration>, p: Profile, es: seq<Declaration>, q: Profile) {
    && multiset(Shapes(ds)) == multiset(Shapes(es)) && p.profileId == q.profileId
    && multiset(p.roots) == multiset(q.roots) && multiset(p.selections) == multiset(q.selections)
    && multiset(p.bindings) == multiset(q.bindings)
  }

  // ---------- declarations ----------

  lemma SameShape(d: Declaration, e: Declaration)
    requires ShapeOf(d) == ShapeOf(e)
    ensures DeclaredOf(d) == DeclaredOf(e)
    ensures SortedIds(d.capabilities, CapabilityIdOf) == SortedIds(e.capabilities, CapabilityIdOf)
    ensures SortedIds(d.slots, SlotIdOf) == SortedIds(e.slots, SlotIdOf)
  {
    IndexedPermuted(d.capabilities, e.capabilities, CapabilityIdOf);
    IndexedPermuted(d.slots, e.slots, SlotIdOf);
    SortedPermuted(d.capabilities, e.capabilities, CapabilityIdOf);
    SortedPermuted(d.slots, e.slots, SlotIdOf);
    MembersOfMultiset(d.slots, e.slots);
  }

  lemma IndexedPermuted<T>(xs: seq<T>, ys: seq<T>, key: T -> Id)
    requires multiset(xs) == multiset(ys)
    ensures Indexed(xs, key) == Indexed(ys, key)
  {
    MembersOfMultiset(xs, ys);
    forall id ensures FindOne(xs, key, id) == FindOne(ys, key, id) { MatchingPermuted(xs, ys, key, id); }
    hide FindOne;
  }

  lemma {:induction false} IdCount<T>(xs: seq<T>, key: T -> Id, id: Id)
    ensures multiset(IdsOf(xs, key))[id] == |Matching(xs, key, id)|
  {
    if xs != [] {
      IdCount(xs[..|xs| - 1], key, id);
      assert IdsOf(xs, key) == IdsOf(xs[..|xs| - 1], key) + [key(xs[|xs| - 1])];
    }
  }

  lemma IdsPermuted<T>(xs: seq<T>, ys: seq<T>, key: T -> Id)
    requires multiset(xs) == multiset(ys)
    ensures multiset(IdsOf(xs, key)) == multiset(IdsOf(ys, key))
  {
    forall id ensures multiset(IdsOf(xs, key))[id] == multiset(IdsOf(ys, key))[id] {
      IdCount(xs, key, id);
      IdCount(ys, key, id);
      MatchingPermuted(xs, ys, key, id);
    }
    SameCounts(IdsOf(xs, key), IdsOf(ys, key));
  }

  lemma SortedPermuted<T>(xs: seq<T>, ys: seq<T>, key: T -> Id)
    requires multiset(xs) == multiset(ys)
    ensures SortedIds(xs, key) == SortedIds(ys, key)
  {
    IdsPermuted(xs, ys, key);
    SortSame(IdsOf(xs, key), IdsOf(ys, key));
  }

  lemma SortSame(a: seq<Id>, b: seq<Id>)
    requires multiset(a) == multiset(b)
    ensures Sort(TextLe, a) == Sort(TextLe, b)
  {
    TextOrder();
    SortCorrect(TextLe, a);
    SortCorrect(TextLe, b);
    SortedUnique(TextLe, Sort(TextLe, a), Sort(TextLe, b));
  }

  function ShapeId(s: Shape): Id { s.implementationId }

  lemma {:induction false} ShapesMatching(ds: seq<Declaration>, id: Id)
    ensures Shapes(Matching(ds, ImplementationOf, id)) == Matching(Shapes(ds), ShapeId, id)
  {
    if ds != [] {
      var front, last := ds[..|ds| - 1], ds[|ds| - 1];
      ShapesMatching(front, id);
      assert Shapes(ds)[..|ds| - 1] == Shapes(front);
      var m := Matching(front, ImplementationOf, id);
      assert Shapes(m + [last]) == Shapes(m) + [ShapeOf(last)];
    } else {
      assert Shapes(ds) == [];
    }
  }

  /** The declarations of one identity, in two arrangements. */
  lemma GroupsPermuted(ds: seq<Declaration>, es: seq<Declaration>, id: Id)
    requires multiset(Shapes(ds)) == multiset(Shapes(es))
    ensures var a, b := Matching(ds, ImplementationOf, id), Matching(es, ImplementationOf, id);
            |a| == |b| && multiset(Shapes(a)) == multiset(Shapes(b))
  {
    ShapesMatching(ds, id);
    ShapesMatching(es, id);
    MatchingPermuted(Shapes(ds), Shapes(es), ShapeId, id);
  }

  lemma ShapeIn(ds: seq<Declaration>, es: seq<Declaration>, d: Declaration) returns (e: Declaration)
    requires multiset(Shapes(ds)) == multiset(Shapes(es)) && d in ds
    ensures e in es && ShapeOf(e) == ShapeOf(d)
  {
    MembersOfMultiset(Shapes(ds), Shapes(es));
    var k :| 0 <= k < |ds| && ds[k] == d;
    assert Shapes(ds)[k] in Shapes(es);
    var j :| 0 <= j < |es| && Shapes(es)[j] == Shapes(ds)[k];
    e := es[j];
  }

  lemma DeclaredSame(ds: seq<Declaration>, es: seq<Declaration>, id: Id)
    requires multiset(Shapes(ds)) == multiset(Shapes(es))
    ensures DeclaredFor(ds, id) == DeclaredFor(es, id)
  {
    GroupsPermuted(ds, es, id);
    var a, b := Matching(ds, ImplementationOf, id), Matching(es, ImplementationOf, id);
    hide Matching, Indexed;
    if |a| == 1 {
      var e := ShapeIn(a, b, a[0]);
      SameShape(a[0], b[0]);
    }
  }

  lemma ModulesSame(ds: seq<Declaration>, es: seq<Declaration>, m: Id)
    requires multiset(Shapes(ds)) == multiset(Shapes(es)) && exists d :: d in ds && d.moduleId == m
    ensures exists e :: e in es && e.moduleId == m
  {
    var d :| d in ds && d.moduleId == m;
    var e := ShapeIn(ds, es, d);
  }

  lemma CensusSame(ds: seq<Declaration>, es: seq<Declaration>, all: bool, c: Census, k: Census)
    requires multiset(Shapes(ds)) == multiset(Shapes(es)) && CensusOf(ds, all, c) && CensusOf(es, all, k)
    ensures c == k
  {
    forall id ensures DeclaredFor(ds, id) == DeclaredFor(es, id) { DeclaredSame(ds, es, id); }
    forall m ensures m in c.modules <==> m in k.modules {
      if m in c.modules { ModulesSame(ds, es, m); }
      if m in k.modules { ModulesSame(es, ds, m); }
    }
    UniqueBySame(ds, es);
    hide DeclaredFor, Shapes, IdentitiesUnique;
    forall id ensures id in c.implementations <==> id in k.implementations {
      assert Look(c.implementations, id) == Look(k.implementations, id);
    }
    forall id | id in c.implementations ensures c.implementations[id] == k.implementations[id] {
      assert Look(c.implementations, id) == Look(k.implementations, id);
    }
  }

  lemma UniqueBySame(ds: seq<Declaration>, es: seq<Declaration>)
    requires multiset(Shapes(ds)) == multiset(Shapes(es))
    ensures IdentitiesUnique(ds) <==> IdentitiesUnique(es)
  {
    forall id ensures |Matching(ds, ImplementationOf, id)| == |Matching(es, ImplementationOf, id)| {
      GroupsPermuted(ds, es, id);
    }
    hide Matching;
    forall id
      ensures FindOne(ds, ImplementationOf, id) == Ambiguous <==> FindOne(es, ImplementationOf, id) == Ambiguous {}
  }

  lemma GroupWithin(id: Id, a: seq<Declaration>, b: seq<Declaration>)
    requires multiset(Shapes(a)) == multiset(Shapes(b))
    ensures RepeatedCapabilities(a) <= RepeatedCapabilities(b) && RepeatedSlots(a) <= RepeatedSlots(b)
  {
    hide SortedIds, Repeats, SlotRepeats;
    forall i | i in RepeatedCapabilities(a) ensures i in RepeatedCapabilities(b) {
      var d :| d in a && i in Repeats(SortedIds(d.capabilities, CapabilityIdOf));
      var e := ShapeIn(a, b, d);
      SameShape(d, e);
    }
    forall i | i in RepeatedSlots(a) ensures i in RepeatedSlots(b) {
      var d :| d in a && i in SlotRepeats(SortedIds(d.slots, SlotIdOf));
      var e := ShapeIn(a, b, d);
      SameShape(d, e);
    }
  }

  lemma CensusReportsWithin(ds: seq<Declaration>, es: seq<Declaration>)
    requires multiset(Shapes(ds)) == multiset(Shapes(es))
    ensures CensusReports(ds) <= CensusReports(es)
  {
    hide GroupReports;
    forall r | r in CensusReports(ds) ensures r in CensusReports(es) {
      var d :| d in ds && r in GroupReports(d.implementationId, Matching(ds, ImplementationOf, d.implementationId));
      var e := ShapeIn(ds, es, d);
      GroupReportsSame(ds, es, d.implementationId);
    }
  }

  lemma GroupReportsSame(ds: seq<Declaration>, es: seq<Declaration>, id: Id)
    requires multiset(Shapes(ds)) == multiset(Shapes(es))
    ensures GroupReports(id, Matching(ds, ImplementationOf, id)) == GroupReports(id, Matching(es, ImplementationOf, id))
  {
    GroupsPermuted(ds, es, id);
    hide Matching, RepeatedCapabilities, RepeatedSlots;
    GroupWithin(id, Matching(ds, ImplementationOf, id), Matching(es, ImplementationOf, id));
    GroupWithin(id, Matching(es, ImplementationOf, id), Matching(ds, ImplementationOf, id));
  }

  // ---------- profiles ----------

  ghost predicate SameProfile(p: Profile, q: Profile) {
    multiset(p.roots) == multiset(q.roots) && multiset(p.selections) == multiset(q.selections)
      && multiset(p.bindings) == multiset(q.bindings)
  }

  lemma ProfileMembers(p: Profile, q: Profile)
    requires SameProfile(p, q)
    ensures forall m :: m in p.roots <==> m in q.roots
    ensures forall s :: s in p.selections <==> s in q.selections
    ensures forall b :: b in p.bindings <==> b in q.bindings
    ensures forall i :: IsSelected(p, i) <==> IsSelected(q, i)
  {
    MembersOfMultiset(p.roots, q.roots);
    MembersOfMultiset(p.selections, q.selections);
    MembersOfMultiset(p.bindings, q.bindings);
  }

  lemma RowsSame(p: Profile, q: Profile, m: Id)
    requires SameProfile(p, q)
    ensures |Rows(p, m)| == |Rows(q, m)| && |Matching(p.roots, Itself, m)| == |Matching(q.roots, Itself, m)|
    ensures forall s :: s in Rows(p, m) <==> s in Rows(q, m)
    ensures |Rows(p, m)| == 1 ==> Rows(p, m)[0] == Rows(q, m)[0]
  {
    MatchingPermuted(p.selections, q.selections, SelectedModule, m);
    MatchingPermuted(p.roots, q.roots, Itself, m);
    MembersOfMultiset(Rows(p, m), Rows(q, m));
    if |Rows(p, m)| == 1 { assert Rows(p, m)[0] in Rows(p, m); }
  }

  lemma ProfileReportsWithin(c: Census, p: Profile, q: Profile)
    requires SameProfile(p, q)
    ensures ProfileReports(c, p) <= ProfileReports(c, q)
  {
    ProfileMembers(p, q);
    forall m ensures ModuleReports(c, m, Rows(p, m)) == ModuleReports(c, m, Rows(q, m)) { RowsSame(p, q, m); }
    forall m
      ensures RootReports(c, p, m, |Matching(p.roots, Itself, m)|) ==
        RootReports(c, q, m, |Matching(q.roots, Itself, m)|)
    {
      RowsSame(p, q, m);
    }
    hide ModuleReports, RootReports, Matching, IsSelected;
  }

  lemma ResolvedSame(c: Census, p: Profile, q: Profile)
    requires SameProfile(p, q) && RootsResolved(c, p)
    ensures RootsResolved(c, q)
  {
    ProfileMembers(p, q);
    forall m ensures (|Rows(p, m)| <= 1 <==> |Rows(q, m)| <= 1) && (RootResolved(c, p, m) <==> RootResolved(c, q, m)) {
      RowsSame(p, q, m);
    }
    hide Matching, Resolves, RootResolved, IsSelected;
    forall m ensures |Rows(q, m)| <= 1 { assert |Rows(p, m)| <= 1; }
  }

  lemma SortedSame(a: seq<Id>, b: seq<Id>)
    requires SortedBy(TextLe, a) && SortedBy(TextLe, b) && Distinct(a) && Distinct(b)
      && forall id :: id in a <==> id in b
    ensures a == b
  {
    SameElementsPermute(a, b);
    TextOrder();
    SortedUnique(TextLe, a, b);
  }

  lemma SelectedSame(c: Census, p: Profile, q: Profile, s: Selected, t: Selected)
    requires SameProfile(p, q) && SelectedOf(c, p, s) && SelectedOf(c, q, t)
    ensures s.ids == t.ids && s.nodes == t.nodes && (s.roots.Some? <==> t.roots.Some?)
    ensures forall r :: r in RootsOr(s.roots) <==> r in RootsOr(t.roots)
  {
    ProfileMembers(p, q);
    if RootsResolved(c, p) { ResolvedSame(c, p, q); }
    if RootsResolved(c, q) { ResolvedSame(c, q, p); }
    hide RootsResolved, SortedBy, TextLe, IsSelected;
    SortedSame(s.ids, t.ids);
    if s.nodes.Some? {
      assert forall i :: 0 <= i < |s.ids| ==> s.nodes.value[i] == t.nodes.value[i];
      assert s.nodes.value == t.nodes.value;
    }
  }

  // ---------- binding rows ----------

  ghost predicate Permuted<T>(a: seq<T>, b: seq<T>) {
    multiset(a) == multiset(b)
  }

  lemma ConsumerRowsPermuted(p: Profile, q: Profile, i: Id)
    requires SameProfile(p, q)
    ensures Permuted(RowsOfConsumer(p, i), RowsOfConsumer(q, i))
  {
    MatchingPermuted(p.bindings, q.bindings, ConsumerOf, i);
  }

  lemma AtPermuted(a: seq<Binding>, b: seq<Binding>, s: Id)
    requires Permuted(a, b)
    ensures |At(a, s)| == |At(b, s)|
    ensures forall r :: r in At(a, s) <==> r in At(b, s)
    ensures |At(a, s)| == 1 ==> At(a, s) == At(b, s)
    ensures s in SlotIds(a) <==> s in SlotIds(b)
  {
    MatchingPermuted(a, b, BoundSlot, s);
    MembersOfMultiset(At(a, s), At(b, s));
    if |At(a, s)| == 1 { assert At(a, s)[0] in At(a, s); }
    IdCount(a, BoundSlot, s);
    IdCount(b, BoundSlot, s);
    assert s in SlotIds(a) <==> multiset(SlotIds(a))[s] > 0;
    assert s in SlotIds(b) <==> multiset(SlotIds(b))[s] > 0;
  }

  lemma ConsumerReportsSame(x: Context, i: Id, a: seq<Binding>, b: seq<Binding>)
    requires Permuted(a, b)
    ensures ConsumerReports(x, i, a) == ConsumerReports(x, i, b)
  {
    hide Repeated, SlotRowReports, SlotIds, RepeatedFor, SlotsReports, Permuted;
    RepeatedSame(i, a, b);
    if Look(x.census.implementations, i).Unique? { SlotsSame(x, i, Look(x.census.implementations, i).value, a, b); }
  }

  lemma RepeatedSame(i: Id, a: seq<Binding>, b: seq<Binding>)
    requires Permuted(a, b)
    ensures RepeatedFor(i, a, SlotIds(a)) == RepeatedFor(i, b, SlotIds(b))
  {
    hide SlotIds, At, Permuted;
    forall s ensures Repeated(i, a, s) == Repeated(i, b, s) && (s in SlotIds(a) <==> s in SlotIds(b)) {
      AtPermuted(a, b, s);
    }
    hide Repeated;
  }

  lemma SlotsSame(x: Context, i: Id, d: Declared, a: seq<Binding>, b: seq<Binding>)
    requires Permuted(a, b)
    ensures SlotsReports(x, i, d, a, SlotIds(a)) == SlotsReports(x, i, d, b, SlotIds(b))
  {
    hide SlotIds, At, Permuted, SlotRowReports;
    forall s
      ensures SlotRowReports(x, i, d, a, s) == SlotRowReports(x, i, d, b, s) && (s in SlotIds(a) <==> s in SlotIds(b)) {
      AtPermuted(a, b, s);
      SlotRowSame(x, i, d, a, b, s);
    }
  }

  lemma SlotRowSame(x: Context, i: Id, d: Declared, a: seq<Binding>, b: seq<Binding>, s: Id)
    requires forall r :: r in At(a, s) <==> r in At(b, s)
    ensures SlotRowReports(x, i, d, a, s) == SlotRowReports(x, i, d, b, s)
  {
    hide RecordReports, At;
  }

  lemma FilledSame(x: Context, i: Id, a: seq<Binding>, b: seq<Binding>)
    requires Permuted(a, b)
    ensures RowsFill(x, i, a) <==> RowsFill(x, i, b)
    ensures forall v :: ValidRow(x, i, a, v) <==> ValidRow(x, i, b, v)
  {
    MembersOfMultiset(a, b);
    forall d, s ensures (SlotFilled(x, d, a, s) <==> SlotFilled(x, d, b, s)) && (s in SlotIds(a) <==> s in SlotIds(b)) {
      AtPermuted(a, b, s);
    }
    hide SlotFilled, SlotIds;
  }

  lemma ConsumersSame(p: Profile, q: Profile, i: Id)
    requires SameProfile(p, q)
    ensures i in IdsOf(p.bindings, ConsumerOf) <==> i in IdsOf(q.bindings, ConsumerOf)
  {
    IdsPermuted(p.bindings, q.bindings, ConsumerOf);
    MembersOfMultiset(IdsOf(p.bindings, ConsumerOf), IdsOf(q.bindings, ConsumerOf));
  }

  lemma BindingReportsSame(x: Context, p: Profile, q: Profile, ids: seq<Id>)
    requires SameProfile(p, q)
    ensures BindingReports(x, p, ids) == BindingReports(x, q, ids)
  {
    forall i ensures ConsumerReports(x, i, RowsOfConsumer(p, i)) == ConsumerReports(x, i, RowsOfConsumer(q, i))
      ensures i in IdsOf(p.bindings, ConsumerOf) <==> i in IdsOf(q.bindings, ConsumerOf)
      ensures MissingFor(x, p, i) == MissingFor(x, q, i)
    {
      ConsumerRowsPermuted(p, q, i);
      ConsumerReportsSame(x, i, RowsOfConsumer(p, i), RowsOfConsumer(q, i));
      ConsumersSame(p, q, i);
      MissingSame(x, p, q, i);
    }
    hide ConsumerReports, MissingFor, RowsOfConsumer, SameProfile;
  }

  lemma MissingSame(x: Context, p: Profile, q: Profile, i: Id)
    requires SameProfile(p, q)
    ensures MissingFor(x, p, i) == MissingFor(x, q, i) && (SlotsSupplied(x, p, i) <==> SlotsSupplied(x, q, i))
  {
    ConsumerRowsPermuted(p, q, i);
    forall s ensures At(RowsOfConsumer(p, i), s) == [] <==> At(RowsOfConsumer(q, i), s) == [] {
      AtPermuted(RowsOfConsumer(p, i), RowsOfConsumer(q, i), s);
    }
    hide At, RowsOfConsumer, UniqueSlotIds, SameProfile;
  }

  lemma FrontierSame(x: Context, p: Profile, q: Profile, i: Id)
    requires SameProfile(p, q)
    ensures FrontierComplete(x, p, i) <==> FrontierComplete(x, q, i)
    ensures forall v: (Binding, Slot) :: v.0.consumer == i ==> (IsValidRow(x, p, v) <==> IsValidRow(x, q, v))
  {
    ConsumerRowsPermuted(p, q, i);
    FilledSame(x, i, RowsOfConsumer(p, i), RowsOfConsumer(q, i));
    MissingSame(x, p, q, i);
    assert |multiset(RowsOfConsumer(p, i))| == |RowsOfConsumer(p, i)|
      && |multiset(RowsOfConsumer(q, i))| == |RowsOfConsumer(q, i)|;
    hide RowsFill, SlotsSupplied, ValidRow, RowsOfConsumer, SameProfile;
  }

  lemma ValidSame(x: Context, p: Profile, q: Profile, a: Bindings, b: Bindings)
    requires SameProfile(p, q) && BindingsOf(x, p, a) && BindingsOf(x, q, b)
    ensures a == b
  {
    forall i ensures FrontierComplete(x, p, i) <==> FrontierComplete(x, q, i) { FrontierSame(x, p, q, i); }
    forall v ensures IsValidRow(x, p, v) <==> IsValidRow(x, q, v) { FrontierSame(x, p, q, v.0.consumer); }
    hide FrontierComplete, IsValidRow, SameProfile;
    assert forall i :: i in a.complete <==> i in b.complete;
    RowOrder();
    hide RowLe;
    CoordinatesDistinct(a.valid);
    CoordinatesDistinct(b.valid);
    SameElementsPermute(a.valid, b.valid);
    NoTiesUnique(RowLe, a.valid, b.valid);
  }

  lemma CoordinatesDistinct(valid: seq<(Binding, Slot)>)
    requires forall i, j :: 0 <= i < j < |valid| ==> !SameRowCoordinate(valid[i], valid[j])
    ensures Distinct(valid)
    ensures forall v, w :: v in valid && w in valid && SameRowCoordinate(v, w) ==> v == w
  {
    forall i, j | 0 <= i < j < |valid| ensures valid[i] != valid[j] { assert !SameRowCoordinate(valid[i], valid[j]); }
    forall v, w | v in valid && w in valid && SameRowCoordinate(v, w) ensures v == w {
      var i, j :| 0 <= i < |valid| && 0 <= j < |valid| && valid[i] == v && valid[j] == w;
      SameIndex(valid, i, j);
    }
  }

  lemma SameIndex(valid: seq<(Binding, Slot)>, i: nat, j: nat)
    requires i < |valid| && j < |valid| && SameRowCoordinate(valid[i], valid[j])
    requires forall a, b :: 0 <= a < b < |valid| ==> !SameRowCoordinate(valid[a], valid[b])
    ensures i == j
  {
  }

  // ---------- the analysis is determined by the graph ----------

  lemma FeedsTransitive(nodes: seq<Id>, edges: seq<G.ProviderEdge>, a: Id, b: Id, c: Id)
    requires G.Feeds(nodes, edges, a, b) && G.Feeds(nodes, edges, b, c)
    ensures G.Feeds(nodes, edges, a, c)
  {
    var v :| G.IdWalk(nodes, edges, v) && v[0] == a && v[|v| - 1] == b;
    var w :| G.IdWalk(nodes, edges, w) && w[0] == b && w[|w| - 1] == c;
    var u := v + w[1..];
    forall i | 0 < i < |u| ensures (u[i - 1], u[i]) in edges {
      if i < |v| {
        assert u[i] == v[i] && u[i - 1] == v[i - 1];
      } else {
        assert u[i] == w[i - |v| + 1];
        assert u[i - 1] == w[i - |v|];
      }
    }
    assert G.IdWalk(nodes, edges, u) && u[0] == a && u[|u| - 1] == c;
  }

  lemma IncreasingSame(a: seq<Id>, b: seq<Id>)
    requires G.IdsIncrease(a) && G.IdsIncrease(b) && forall i :: i in a <==> i in b
    ensures a == b
  {
    G.IncreasingDistinct(a);
    G.IncreasingDistinct(b);
    IncreasingSorted(a);
    IncreasingSorted(b);
    SortedSame(a, b);
  }

  lemma IncreasingSorted(a: seq<Id>)
    requires G.IdsIncrease(a)
    ensures SortedBy(TextLe, a)
  {
    forall i, j | 0 <= i < j < |a| ensures TextLe(a[i], a[j]) { TextTrichotomy(a[i], a[j]); }
  }

  /** Two reports that share an identity are the same report. */
  lemma SharedCycle(nodes: seq<Id>, edges: seq<G.ProviderEdge>, c: seq<Id>, e: seq<Id>, x: Id)
    requires G.CycleReport(nodes, edges, c) && G.CycleReport(nodes, edges, e) && x in c && x in e
    ensures c == e
  {
    hide G.Feeds, G.IdsIncrease, G.InCycle;
    forall b ensures b in c <==> b in e {
      if b in c { Through(nodes, edges, c[0], x, b, e[0]); }
      if b in e { Through(nodes, edges, e[0], x, b, c[0]); }
    }
    IncreasingSame(c, e);
  }

  lemma Through(nodes: seq<Id>, edges: seq<G.ProviderEdge>, c: Id, x: Id, b: Id, e: Id)
    requires G.Feeds(nodes, edges, c, x)
    requires G.Feeds(nodes, edges, x, c)
    requires G.Feeds(nodes, edges, c, b)
    requires G.Feeds(nodes, edges, b, c)
    requires G.Feeds(nodes, edges, e, x) && G.Feeds(nodes, edges, x, e)
    ensures G.Feeds(nodes, edges, e, b) && G.Feeds(nodes, edges, b, e)
  {
    hide G.Feeds;
    FeedsTransitive(nodes, edges, e, x, c);
    FeedsTransitive(nodes, edges, e, c, b);
    FeedsTransitive(nodes, edges, b, c, x);
    FeedsTransitive(nodes, edges, b, x, e);
  }

  function First(c: seq<Id>): Id { if c == [] then "" else c[0] }

  predicate FirstLe(a: seq<Id>, b: seq<Id>) { TextLe(First(a), First(b)) }

  lemma FirstOrder()
    ensures TotalPreorder(FirstLe)
  {
    TextOrder();
  }

  lemma CyclesWithin(nodes: seq<Id>, edges: seq<G.ProviderEdge>, a: seq<seq<Id>>, b: seq<seq<Id>>, c: seq<Id>)
    requires G.CycleReports(nodes, edges, a) && G.CycleReports(nodes, edges, b) && c in a
    ensures c in b
  {
    hide G.CycleReport, G.InCycle;
    var i :| 0 <= i < |a| && a[i] == c;
    CycleFirst(nodes, edges, c);
    G.CycleReportNodes(nodes, edges, c);
    var k :| 0 <= k < |b| && c[0] in b[k];
    SharedCycle(nodes, edges, c, b[k], c[0]);
  }

  lemma CycleFirst(nodes: seq<Id>, edges: seq<G.ProviderEdge>, c: seq<Id>)
    requires G.CycleReport(nodes, edges, c)
    ensures c != [] && c[0] in c && G.InCycle(nodes, edges, c[0])
  {
    hide G.InCycle, G.Feeds;
  }

  lemma CyclesUnique(nodes: seq<Id>, edges: seq<G.ProviderEdge>, a: seq<seq<Id>>, b: seq<seq<Id>>)
    requires G.CycleReports(nodes, edges, a) && G.CycleReports(nodes, edges, b)
    ensures a == b
  {
    hide G.CycleReports, FirstLe, SortedBy, TotalPreorder;
    CyclesDistinct(nodes, edges, a);
    CyclesDistinct(nodes, edges, b);
    forall c ensures c in a <==> c in b {
      if c in a { CyclesWithin(nodes, edges, a, b, c); }
      if c in b { CyclesWithin(nodes, edges, b, a, c); }
    }
    SameElementsPermute(a, b);
    FirstOrder();
    CyclesSorted(nodes, edges, a);
    CyclesSorted(nodes, edges, b);
    forall c, e | c in a && e in a && FirstLe(c, e) && FirstLe(e, c) ensures c == e {
      TieIsSame(nodes, edges, a, c, e);
    }
    NoTiesUnique(FirstLe, a, b);
  }

  lemma TieIsSame(nodes: seq<Id>, edges: seq<G.ProviderEdge>, a: seq<seq<Id>>, c: seq<Id>, e: seq<Id>)
    requires G.CycleReports(nodes, edges, a) && c in a && e in a && FirstLe(c, e) && FirstLe(e, c)
    ensures c == e
  {
    hide G.CycleReports, G.CycleReport;
    CycleOf(nodes, edges, a, c);
    CycleOf(nodes, edges, a, e);
    TextOrder();
    SharedCycle(nodes, edges, c, e, c[0]);
  }

  lemma CycleOf(nodes: seq<Id>, edges: seq<G.ProviderEdge>, a: seq<seq<Id>>, c: seq<Id>)
    requires G.CycleReports(nodes, edges, a) && c in a
    ensures G.CycleReport(nodes, edges, c) && c != [] && c[0] in c
  {
    hide G.InCycle, G.Feeds;
    var i :| 0 <= i < |a| && a[i] == c;
  }

  lemma CyclesSorted(nodes: seq<Id>, edges: seq<G.ProviderEdge>, a: seq<seq<Id>>)
    requires G.CycleReports(nodes, edges, a)
    ensures SortedBy(FirstLe, a)
  {
    hide G.CycleReport, G.InCycle;
    forall i, j | 0 <= i < j < |a| ensures FirstLe(a[i], a[j]) { TextTrichotomy(a[i][0], a[j][0]); }
  }

  lemma DepthUnique(nodes: seq<Id>, edges: seq<G.ProviderEdge>, a: nat, b: nat)
    requires G.LongestWalk(nodes, edges, a) && G.LongestWalk(nodes, edges, b)
    ensures a <= b
  {
    hide G.AcyclicWalk;
  }

  lemma AnalysisSame(nodes: seq<Id>, edges: seq<G.ProviderEdge>, r: seq<Id>, t: seq<Id>, a: G.Analysis, b: G.Analysis)
    requires G.Correct(nodes, edges, r, a) && G.Correct(nodes, edges, t, b) && forall i :: i in r <==> i in t
    ensures a.cycles == b.cycles
    ensures a.dependencyOrder == b.dependencyOrder
    ensures a.residualDepth == b.residualDepth
    ensures a.rootClosure == b.rootClosure
  {
    hide G.CycleReports, G.LongestWalk, G.LeastDependencyOrder, G.RootClosure;
    CyclesUnique(nodes, edges, a.cycles, b.cycles);
    DepthUnique(nodes, edges, a.residualDepth, b.residualDepth);
    DepthUnique(nodes, edges, b.residualDepth, a.residualDepth);
    if a.cycles == [] { G.LeastDependencyOrderUnique(nodes, edges, a.dependencyOrder.value, b.dependencyOrder.value); }
    ClosureUnique(nodes, edges, r, t, a.rootClosure, b.rootClosure);
  }

  lemma ClosureUnique(nodes: seq<Id>, edges: seq<G.ProviderEdge>, r: seq<Id>, t: seq<Id>, a: seq<Id>, b: seq<Id>)
    requires G.RootClosure(nodes, edges, r, a) && G.RootClosure(nodes, edges, t, b) && forall i :: i in r <==> i in t
    ensures a == b
  {
    hide G.Feeds, G.IdsIncrease;
    IncreasingSame(a, b);
  }

  // ---------- the whole compilation ----------

  lemma {:induction false} SupplyJoin(p: Profile, a: seq<Binding>, b: seq<Binding>)
    ensures |Supply(p, a + b)| == |Supply(p, a)| + |Supply(p, b)|
  {
    if b == [] {
      assert a + b == a;
    } else {
      SupplyJoin(p, a, b[..|b| - 1]);
      assert (a + b)[..|a + b| - 1] == a + b[..|b| - 1];
    }
  }

  /** Where the last element of one arrangement stands in the other, and what both are without it. */
  lemma MatchLast<T>(a: seq<T>, b: seq<T>) returns (k: nat)
    requires multiset(a) == multiset(b) && a != []
    ensures k < |b| && b[k] == a[|a| - 1]
    ensures a == a[..|a| - 1] + [b[k]] && b == b[..k] + [b[k]] + b[k + 1..]
    ensures multiset(a[..|a| - 1]) == multiset(b[..k] + b[k + 1..])
  {
    MembersOfMultiset(a, b);
    var last := a[|a| - 1];
    assert last in b;
    k :| 0 <= k < |b| && b[k] == last;
    RemoveAt(b, k);
    assert a == a[..|a| - 1] + [last];
    assert multiset(a) == multiset(a[..|a| - 1]) + multiset{last};
  }

  lemma {:induction false} SupplyPermuted(p: Profile, a: seq<Binding>, b: seq<Binding>)
    requires multiset(a) == multiset(b)
    ensures |Supply(p, a)| == |Supply(p, b)|
  {
    hide Supply;
    if a == [] {
      MembersOfMultiset(a, b);
    } else {
      var k := MatchLast(a, b);
      SupplyPermuted(p, a[..|a| - 1], b[..k] + b[k + 1..]);
      SupplyJoin(p, a[..|a| - 1], [b[k]]);
      SupplyJoin(p, b[..k] + [b[k]], b[k + 1..]);
      SupplyJoin(p, b[..k], [b[k]]);
      SupplyJoin(p, b[..k], b[k + 1..]);
    }
  }

  lemma {:induction false} SupplySelection(p: Profile, q: Profile, bs: seq<Binding>)
    requires forall i :: IsSelected(p, i) <==> IsSelected(q, i)
    ensures Supply(p, bs) == Supply(q, bs)
  {
    hide IsSelected;
    if bs != [] { SupplySelection(p, q, bs[..|bs| - 1]); }
  }

  lemma BudgetSame(p: Profile, q: Profile)
    requires SameProfile(p, q)
    ensures WithinBudget(p) <==> WithinBudget(q)
  {
    ProfileMembers(p, q);
    SupplySelection(p, q, p.bindings);
    SupplyPermuted(q, p.bindings, q.bindings);
  }

  lemma ResourcesSame(i: Input, p: Profile, j: Input, q: Profile, c: Census)
    requires Admitted(i, p) && Admitted(j, q) && SameProfile(p, q)
    ensures ResourceReports(c, i.observations) == ResourceReports(c, j.observations)
    ensures EdgesExceeded(i.observations.value) <==> EdgesExceeded(j.observations.value)
  {
    BudgetSame(p, q);
    ResourcesClean(i, p, c);
    ResourcesClean(j, q, c);
    NoneOverfull(i, p, c);
    NoneOverfull(j, q, c);
    hide OverfullReports, EdgesExceeded, Occurrences;
  }

  lemma NoneOverfull(i: Input, p: Profile, c: Census)
    requires Admitted(i, p)
    ensures OverfullReports(c, p.selections, Facts(p.bindings)) == {}
  {
    var rows := Facts(p.bindings);
    forall row | row in rows ensures !Overfull(c, p.selections, row) {
      var k :| 0 <= k < |rows| && rows[k] == row;
      assert p.bindings[k] in p.bindings;
    }
    hide Overfull;
  }

  ghost predicate BothAdmitted(i: Input, p: Profile, j: Input, q: Profile) {
    Admitted(i, p) && Admitted(j, q) && Rearranged(i.declarations, p, j.declarations, q)
  }

  /** Two arrangements of one composition derive the same censuses, rows and graph. */
  lemma DerivedSame(i: Input, p: Profile, d: Derived, j: Input, q: Profile, e: Derived)
    requires BothAdmitted(i, p, j, q) && Derives(i, d) && Derives(j, e)
    ensures d.census == e.census && d.context == e.context && d.bindings == e.bindings
    ensures d.selected.ids == e.selected.ids
    ensures d.selected.nodes == e.selected.nodes
    ensures d.selected.roots.Some? <==> e.selected.roots.Some?
    ensures d.analysis.Some? <==> e.analysis.Some?
    ensures d.analysis.Some? ==>
      && d.analysis.value.cycles == e.analysis.value.cycles
      && d.analysis.value.dependencyOrder == e.analysis.value.dependencyOrder
      && d.analysis.value.residualDepth == e.analysis.value.residualDepth
      && d.analysis.value.rootClosure == e.analysis.value.rootClosure
  {
    hide CensusOf, SelectedOf, BindingsOf, G.Correct, EdgesExceeded, EdgesOf, Facts;
    CensusSame(i.declarations, j.declarations, true, d.census, e.census);
    SelectedSame(d.census, p, q, d.selected, e.selected);
    assert d.context.selected == e.context.selected;
    ValidSame(d.context, p, q, d.bindings, e.bindings);
    ResourcesSame(i, p, j, q, d.census);
    if d.analysis.Some? {
      AnalysisSame(d.selected.ids, EdgesOf(d.bindings.valid), RootsOr(d.selected.roots), RootsOr(e.selected.roots),
        d.analysis.value, e.analysis.value);
    }
  }

  lemma GraphPartSame(d: Derived, e: Derived)
    requires d.selected.nodes == e.selected.nodes
    requires d.selected.roots.Some? <==> e.selected.roots.Some?
    requires d.bindings == e.bindings
    requires d.analysis.Some? <==> e.analysis.Some?
    requires d.analysis.Some? ==>
      && d.analysis.value.cycles == e.analysis.value.cycles
      && d.analysis.value.residualDepth == e.analysis.value.residualDepth
      && d.analysis.value.rootClosure == e.analysis.value.rootClosure
    ensures GraphPart(d) == GraphPart(e)
  {
  }

  /** Two arrangements of one composition are reported on alike. */
  lemma ReportsSame(i: Input, p: Profile, d: Derived, j: Input, q: Profile, e: Derived)
    requires BothAdmitted(i, p, j, q) && Derives(i, d) && Derives(j, e)
    ensures AllReports(i, d) == AllReports(j, e)
  {
    hide Derives, AllReports, CensusReports, ResourceReports, ProfileReports, BindingReports, GraphPart, Facts;
    DerivedSame(i, p, d, j, q, e);
    GraphPartSame(d, e);
    CensusReportsWithin(i.declarations, j.declarations);
    CensusReportsWithin(j.declarations, i.declarations);
    ProfileReportsWithin(d.census, p, q);
    ProfileReportsWithin(d.census, q, p);
    BindingReportsSame(d.context, p, q, d.selected.ids);
    ResourcesSame(i, p, j, q, d.census);
    AllParts(i, d, p);
    AllParts(j, e, q);
  }

  lemma {:induction false} NormalizedPermuted(a: seq<Candidate>, b: seq<Candidate>)
    requires multiset(a) == multiset(b)
    ensures multiset(Normalized(a)) == multiset(Normalized(b))
  {
    hide Normalize, Normalized;
    if a == [] {
      MembersOfMultiset(a, b);
    } else {
      var k := MatchLast(a, b);
      NormalizedPermuted(a[..|a| - 1], b[..k] + b[k + 1..]);
      NormalizedJoin(a[..|a| - 1], [b[k]]);
      NormalizedJoin(b[..k] + [b[k]], b[k + 1..]);
      NormalizedJoin(b[..k], [b[k]]);
      NormalizedJoin(b[..k], b[k + 1..]);
    }
  }

  /** And so the diagnostics that come out are the same list. */
  lemma DiagnosticsSame(i: Input, p: Profile, d: Derived, a: seq<Candidate>, x: seq<D.Diagnostic>,
                        j: Input, q: Profile, e: Derived, b: seq<Candidate>, y: seq<D.Diagnostic>,
                          canonicalize: D.Canonicalize)
    requires BothAdmitted(i, p, j, q) && Derives(i, d) && Derives(j, e) && D.Injective(canonicalize)
    requires Exactly(a, AllReports(i, d)) && Exactly(b, AllReports(j, e))
    requires Finished(canonicalize, Normalized(a), x) && Finished(canonicalize, Normalized(b), y)
    ensures x == y
  {
    hide BothAdmitted, Derives, AllReports, Exactly, Finished, Normalized, D.Injective;
    ReportsSame(i, p, d, j, q, e);
    ExactlySame(a, b, AllReports(i, d));
    NormalizedPermuted(a, b);
    FinishedUnique(canonicalize, Normalized(a), Normalized(b), x, y);
  }

  lemma SelectionsOnce(p: Profile, q: Profile)
    requires Distinct(IdsOf(p.selections, SelectedModule)) && multiset(p.selections) == multiset(q.selections)
    ensures Sort(SelectionLe, p.selections) == Sort(SelectionLe, q.selections)
  {
    hide Sort, SelectionLe, TotalPreorder, SortedBy, Distinct;
    SelectionOrder();
    SortCorrect(SelectionLe, p.selections);
    SortCorrect(SelectionLe, q.selections);
    MembersOfMultiset(Sort(SelectionLe, p.selections), p.selections);
    forall x, y | x in p.selections && y in p.selections && SelectionLe(x, y) && SelectionLe(y, x) ensures x == y {
      SelectionTie(p, x, y);
    }
    NoTiesUnique(SelectionLe, Sort(SelectionLe, p.selections), Sort(SelectionLe, q.selections));
  }

  lemma SelectionTie(p: Profile, x: Selection, y: Selection)
    requires Distinct(IdsOf(p.selections, SelectedModule))
    requires x in p.selections
    requires y in p.selections
    requires SelectionLe(x, y)
    requires SelectionLe(y, x)
    ensures x == y
  {
    TextOrder();
    var i, j :| 0 <= i < |p.selections| && 0 <= j < |p.selections| && p.selections[i] == x && p.selections[j] == y;
    assert IdsOf(p.selections, SelectedModule)[i] == IdsOf(p.selections, SelectedModule)[j];
  }

  lemma SelectionOrder()
    ensures TotalPreorder(SelectionLe)
  {
    TextOrder();
  }

  /**
   * Two arrangements of one valid composition compile to the same plan; only the order of providers inside a row
   * is the author's.
   */
  lemma PlanSame(i: Input, p: Profile, d: Derived, x: Plan, j: Input, q: Profile, e: Derived, y: Plan)
    requires BothAdmitted(i, p, j, q) && Derives(i, d) && Derives(j, e) && ValidComposition(i.declarations, p)
    requires PlanFrom(i, d, x) && PlanFrom(j, e, y)
    ensures x == y
  {
    hide Derives, Facts, DeclaredOnce, RootsValid, BindingsValid, WithinBudget, GraphValid, Sort, Shapes;
    DerivedSame(i, p, d, j, q, e);
    SortSame(p.roots, q.roots);
    SelectionsOnce(p, q);
  }
}
