/** What a profile selects, and whether its selections and roots resolve (profile-census.ts). */
module ProfileCensus {
  import opened Sequences
  import opened Text
  import opened Composition
  import opened Candidates
  import opened DeclarationCensus

  datatype Selected = Selected(ids: seq<Id>, nodes: Option<seq<Declared>>, roots: Option<seq<Id>>)

  function ImplementationSelected(s: Selection): Id { s.implementationId }

  ghost function Rows(p: Profile, m: Id): seq<Selection> {
    Matching(p.selections, SelectedModule, m)
  }

  ghost predicate IsSelected(p: Profile, id: Id) {
    exists s :: s in p.selections && s.implementationId == id
  }

  /** A selection names a declared implementation of its module. */
  ghost predicate Resolves(c: Census, s: Selection) {
    Look(c.implementations, s.implementationId).Unique?
      && Look(c.implementations, s.implementationId).value.moduleId == s.moduleId
  }

  ghost function RowReports(c: Census, s: Selection): set<Candidate> {
    if !c.identityComplete then {}
    else match Look(c.implementations, s.implementationId)
      case Absent => {UnknownImplementation(s.moduleId, s.implementationId)}
      case Ambiguous => {}
      case Unique(d) =>
        if d.moduleId != s.moduleId then {ImplementationMismatch(s.moduleId, s.implementationId)} else {}
  }

  ghost function RowsReports(c: Census, rows: seq<Selection>): set<Candidate> {
    set s, r | s in rows && r in RowReports(c, s) :: r
  }

  ghost function ModuleReports(c: Census, m: Id, rows: seq<Selection>): set<Candidate> {
    (if |rows| > 1 then {DuplicateSelection(m)} else {})
    + (if c.moduleComplete && m !in c.modules then {UnknownModule(m)} else {})
    + RowsReports(c, rows)
  }

  ghost function SelectionReports(c: Census, p: Profile): set<Candidate> {
    set s, r | s in p.selections && r in ModuleReports(c, s.moduleId, Rows(p, s.moduleId)) :: r
  }

  ghost predicate SelectionsResolved(c: Census, p: Profile) {
    && (forall m :: |Rows(p, m)| <= 1)
    && (forall s :: s in p.selections ==> Resolves(c, s))
  }

  ghost function RootReports(c: Census, p: Profile, m: Id, count: nat): set<Candidate> {
    (if count > 1 then {DuplicateRoot(m)} else {})
    + (if !c.moduleComplete then {}
       else if m !in c.modules then {UnknownRoot(m)}
       else if Rows(p, m) == [] then {MissingSelection(m)}
       else {})
  }

  ghost function RootsReports(c: Census, p: Profile): set<Candidate> {
    set m, r | m in p.roots && r in RootReports(c, p, m, |Matching(p.roots, Itself, m)|) :: r
  }

  ghost function ProfileReports(c: Census, p: Profile): set<Candidate> {
    SelectionReports(c, p) + RootsReports(c, p)
  }

  /** A root names the module of exactly one selection, which resolves. */
  ghost predicate RootResolved(c: Census, p: Profile, m: Id) {
    |Matching(p.roots, Itself, m)| == 1 && |Rows(p, m)| == 1 && Resolves(c, Rows(p, m)[0])
  }

  ghost predicate RootsResolved(c: Census, p: Profile) {
    SelectionsResolved(c, p) && forall m :: m in p.roots ==> RootResolved(c, p, m)
  }

  ghost predicate RootIds(p: Profile, ids: seq<Id>) {
    forall id :: id in ids <==> exists s :: s in p.selections && s.moduleId in p.roots && s.implementationId == id
  }

  ghost predicate SelectedOf(c: Census, p: Profile, s: Selected) {
    && SortedBy(TextLe, s.ids) && Distinct(s.ids) && (forall id :: id in s.ids <==> IsSelected(p, id))
    && (s.nodes.Some? <==> forall id :: id in s.ids ==> Look(c.implementations, id).Unique?)
    && (s.nodes.Some? ==> |s.nodes.value| == |s.ids| && forall i ::
      0 <= i < |s.ids| ==> Look(c.implementations, s.ids[i]) == Unique(s.nodes.value[i]))
    && (s.roots.Some? <==> RootsResolved(c, p))
    && (s.roots.Some? ==> RootIds(p, s.roots.value))
  }

  // ---------- the selections of one module ----------

  lemma RowsReportsMore(c: Census, rows: seq<Selection>, s: Selection)
    ensures RowsReports(c, rows + [s]) == RowsReports(c, rows) + RowReports(c, s)
  {
    hide RowReports;
    forall x ensures x in rows + [s] <==> x in rows || x == s {}
  }

  ghost function Named(m: Id, ids: seq<Id>): (r: seq<Selection>)
    ensures |r| == |ids| && forall i :: 0 <= i < |ids| ==> r[i] == Selection(m, ids[i])
  {
    seq(|ids|, i requires 0 <= i < |ids| => Selection(m, ids[i]))
  }

  lemma NamedMore(c: Census, m: Id, ids: seq<Id>, id: Id)
    requires id !in ids
    ensures Named(m, ids + [id]) == Named(m, ids) + [Selection(m, id)]
    ensures RowsReports(c, Named(m, ids + [id])) == RowsReports(c, Named(m, ids)) + RowReports(c, Selection(m, id))
    ensures UnknownImplementation(m, id) !in RowsReports(c, Named(m, ids))
    ensures ImplementationMismatch(m, id) !in RowsReports(c, Named(m, ids))
    ensures forall r :: r in RowsReports(c, Named(m, ids)) ==> r.UnknownImplementation? || r.ImplementationMismatch?
  {
    RowsReportsMore(c, Named(m, ids), Selection(m, id));
    assert Named(m, ids + [id]) == Named(m, ids) + [Selection(m, id)];
    forall s | s in Named(m, ids) ensures s.moduleId == m && s.implementationId in ids {
      var i :| 0 <= i < |ids| && Named(m, ids)[i] == s;
    }
  }

  lemma SameRows(c: Census, m: Id, rows: seq<Selection>, ids: seq<Id>, groups: map<Id, seq<Selection>>)
    requires Grouped(rows, ImplementationSelected, ids, groups) && forall s :: s in rows ==> s.moduleId == m
    ensures forall s :: s in rows <==> s in Named(m, ids)
    ensures RowsReports(c, Named(m, ids)) == RowsReports(c, rows)
  {
    hide RowReports;
    forall s | s in rows ensures s in Named(m, ids) {
      assert ImplementationSelected(s) in groups;
      var i :| 0 <= i < |ids| && ids[i] == s.implementationId;
      assert Named(m, ids)[i] == s;
    }
    forall s | s in Named(m, ids) ensures s in rows {
      var i :| 0 <= i < |ids| && Named(m, ids)[i] == s;
      GroupedLookup(rows, ImplementationSelected, ids, groups, ids[i]);
    }
  }

  ghost predicate AllResolve(c: Census, m: Id, ids: seq<Id>) {
    forall i :: 0 <= i < |ids| ==> Resolves(c, Selection(m, ids[i]))
  }

  lemma AllResolveMore(c: Census, m: Id, ids: seq<Id>, id: Id)
    ensures AllResolve(c, m, [])
    ensures AllResolve(c, m, ids + [id]) <==> AllResolve(c, m, ids) && Resolves(c, Selection(m, id))
  {
    var more := ids + [id];
    assert more[|ids|] == id && forall i :: 0 <= i < |ids| ==> more[i] == ids[i];
  }

  lemma AllResolveRows(c: Census, m: Id, ids: seq<Id>)
    ensures AllResolve(c, m, ids) <==> forall s :: s in Named(m, ids) ==> Resolves(c, s)
  {
    forall i | 0 <= i < |ids| ensures Selection(m, ids[i]) in Named(m, ids) {
      assert Named(m, ids)[i] == Selection(m, ids[i]);
    }
  }

  /** Each implementation named for the module, once. */
  method ValidateNames(c: Census, m: Id, ids: seq<Id>, start: seq<Candidate>, ghost base: set<Candidate>)
    returns (added: seq<Candidate>, resolved: bool)
    requires Exactly(start, base) && Distinct(ids)
      && forall r :: r in base ==> !r.UnknownImplementation? && !r.ImplementationMismatch?
    ensures Exactly(added, base + RowsReports(c, Named(m, ids)))
    ensures resolved <==> AllResolve(c, m, ids)
  {
    hide RowsReports, Exactly, AllResolve;
    added, resolved := start, true;
    NoRows(c, m);
    AllResolveMore(c, m, [], "");
    assert ids[..0] == [] && base + {} == base;
    for k := 0 to |ids|
      invariant Exactly(added, base + RowsReports(c, Named(m, ids[..k])))
      invariant resolved <==> AllResolve(c, m, ids[..k])
    {
      var id := ids[k];
      assert ids[..k + 1] == ids[..k] + [id] && id !in ids[..k];
      NamedMore(c, m, ids[..k], id);
      ghost var reports := base + RowsReports(c, Named(m, ids[..k]));
      var known := Look(c.implementations, id);
      AllResolveMore(c, m, ids[..k], id);
      if !known.Unique? || known.value.moduleId != m { resolved := false; }
      if c.identityComplete {
        if known.Absent? {
          ExactlyOne(added, reports, UnknownImplementation(m, id));
          added := added + [UnknownImplementation(m, id)];
        } else if known.Unique? && known.value.moduleId != m {
          ExactlyOne(added, reports, ImplementationMismatch(m, id));
          added := added + [ImplementationMismatch(m, id)];
        }
      }
      assert base + RowsReports(c, Named(m, ids[..k + 1])) == reports + RowReports(c, Selection(m, id));
      assert reports + {} == reports;
    }
    assert ids[..|ids|] == ids;
  }

  /** The selections of one module: how many, whether the module exists, and what they name. */
  method ValidateGroup(c: Census, m: Id, rows: seq<Selection>) returns (added: seq<Candidate>, resolved: bool)
    requires rows != [] && forall s :: s in rows ==> s.moduleId == m
    ensures Exactly(added, ModuleReports(c, m, rows))
    ensures resolved <==> |rows| == 1 && forall s :: s in rows ==> Resolves(c, s)
  {
    hide RowsReports, Grouped, Resolves, AllResolve;
    added := [];
    ghost var base: set<Candidate> := {};
    if |rows| > 1 { added, base := [DuplicateSelection(m)], {DuplicateSelection(m)}; }
    if c.moduleComplete && m !in c.modules {
      ExactlyOne(added, base, UnknownModule(m));
      added, base := added + [UnknownModule(m)], base + {UnknownModule(m)};
    }
    var ids, groups := GroupBy(rows, ImplementationSelected);
    DistinctIds(rows, ids, groups);
    added, resolved := ValidateNames(c, m, ids, added, base);
    SameRows(c, m, rows, ids, groups);
    AllResolveRows(c, m, ids);
    resolved := resolved && |rows| == 1;
  }

  lemma DistinctIds(rows: seq<Selection>, ids: seq<Id>, groups: map<Id, seq<Selection>>)
    requires Grouped(rows, ImplementationSelected, ids, groups)
    ensures Distinct(ids)
  {
  }

  lemma NoRows(c: Census, m: Id)
    ensures RowsReports(c, Named(m, [])) == {}
  {
  }

  lemma ModuleReportsNamed(c: Census, m: Id, rows: seq<Selection>)
    requires forall s :: s in rows ==> s.moduleId == m
    ensures forall r :: r in ModuleReports(c, m, rows) ==>
      (r.DuplicateSelection? || r.UnknownModule? || r.UnknownImplementation? || r.ImplementationMismatch?)
        && r.moduleId == m
  {
  }

  ghost function ModulesReports(c: Census, p: Profile, ms: seq<Id>): set<Candidate> {
    set m, r | m in ms && r in ModuleReports(c, m, Rows(p, m)) :: r
  }

  lemma ModulesMore(c: Census, p: Profile, ms: seq<Id>, m: Id)
    requires m !in ms
    ensures ModulesReports(c, p, ms + [m]) == ModulesReports(c, p, ms) + ModuleReports(c, m, Rows(p, m))
    ensures ModulesReports(c, p, ms) !! ModuleReports(c, m, Rows(p, m))
  {
    forall x ensures forall s :: s in Rows(p, x) ==> s.moduleId == x {
      MatchingMembers(p.selections, SelectedModule, x);
    }
    forall x { ModuleReportsNamed(c, x, Rows(p, x)); }
    hide ModuleReports;
    forall x ensures x in ms + [m] <==> x in ms || x == m {}
  }

  lemma ModulesAll(c: Census, p: Profile, ms: seq<Id>, groups: map<Id, seq<Selection>>)
    requires Grouped(p.selections, SelectedModule, ms, groups)
    ensures ModulesReports(c, p, ms) == SelectionReports(c, p)
  {
    hide ModuleReports;
    forall r | r in ModulesReports(c, p, ms) ensures r in SelectionReports(c, p) {
      var m :| m in ms && r in ModuleReports(c, m, Rows(p, m));
      GroupedLookup(p.selections, SelectedModule, ms, groups, m);
    }
    forall r | r in SelectionReports(c, p) ensures r in ModulesReports(c, p, ms) {
      var s :| s in p.selections && r in ModuleReports(c, s.moduleId, Rows(p, s.moduleId));
      assert SelectedModule(s) in groups;
    }
  }

  /** Every module the profile selects for. */
  method ValidateSelectionGroups(c: Census, p: Profile, ms: seq<Id>, groups: map<Id, seq<Selection>>)
    returns (added: seq<Candidate>, resolved: bool)
    requires Grouped(p.selections, SelectedModule, ms, groups)
    ensures Exactly(added, SelectionReports(c, p))
    ensures resolved <==> SelectionsResolved(c, p)
  {
    hide ModuleReports, SelectionReports, ModulesReports, Resolves;
    added, resolved := [], true;
    NoModulesReports(c, p);
    assert ms[..0] == [];
    for k := 0 to |ms|
      invariant Exactly(added, ModulesReports(c, p, ms[..k]))
      invariant resolved <==> forall i ::
        0 <= i < k ==> |groups[ms[i]]| == 1 && forall s :: s in groups[ms[i]] ==> Resolves(c, s)
    {
      var m := ms[k];
      assert ms[..k + 1] == ms[..k] + [m] && m in groups && m !in ms[..k];
      ModulesMore(c, p, ms[..k], m);
      MatchingMembers(p.selections, SelectedModule, m);
      var more, one := ValidateGroup(c, m, groups[m]);
      ExactlyBoth(added, ModulesReports(c, p, ms[..k]), more, ModuleReports(c, m, groups[m]));
      added := added + more;
      if !one { resolved := false; }
    }
    assert ms[..|ms|] == ms;
    ModulesAll(c, p, ms, groups);
    ResolvedAll(c, p, ms, groups);
  }

  lemma NoModulesReports(c: Census, p: Profile)
    ensures Exactly([], ModulesReports(c, p, []))
  {
  }

  lemma ResolvedAll(c: Census, p: Profile, ms: seq<Id>, groups: map<Id, seq<Selection>>)
    requires Grouped(p.selections, SelectedModule, ms, groups)
    ensures SelectionsResolved(c, p) <==> forall i ::
      0 <= i < |ms| ==> |groups[ms[i]]| == 1 && forall s :: s in groups[ms[i]] ==> Resolves(c, s)
  {
    hide Resolves, Matching;
    if forall i :: 0 <= i < |ms| ==> |groups[ms[i]]| == 1 && forall s :: s in groups[ms[i]] ==> Resolves(c, s) {
      forall s | s in p.selections ensures Resolves(c, s) {
        assert SelectedModule(s) in groups;
        RowsOf(p, ms, groups, s.moduleId, s);
        var i :| 0 <= i < |ms| && ms[i] == s.moduleId;
      }
      forall m ensures |Rows(p, m)| <= 1 {
        GroupedLookup(p.selections, SelectedModule, ms, groups, m);
        if m in groups { var i :| 0 <= i < |ms| && ms[i] == m; }
      }
    }
    if SelectionsResolved(c, p) {
      forall i | 0 <= i < |ms| ensures |groups[ms[i]]| == 1 && forall s :: s in groups[ms[i]] ==> Resolves(c, s) {
        assert ms[i] in groups && |Rows(p, ms[i])| <= 1;
        forall s | s in groups[ms[i]] ensures Resolves(c, s) { RowsOf(p, ms, groups, ms[i], s); }
      }
    }
  }

  lemma RowsOf(p: Profile, ms: seq<Id>, groups: map<Id, seq<Selection>>, m: Id, s: Selection)
    requires Grouped(p.selections, SelectedModule, ms, groups) && m in groups
    ensures groups[m] == Rows(p, m) && (s in groups[m] <==> s in p.selections && s.moduleId == m)
  {
    MatchingMember(p.selections, SelectedModule, m, s);
  }

  // ---------- roots ----------

  ghost function RootReportsFor(c: Census, p: Profile, ms: seq<Id>): set<Candidate> {
    set m, r | m in ms && r in RootReports(c, p, m, |Matching(p.roots, Itself, m)|) :: r
  }

  lemma RootReportsNamed(c: Census, p: Profile, m: Id, count: nat)
    ensures forall r ::
      r in RootReports(c, p, m, count) ==>
        (r.DuplicateRoot? || r.UnknownRoot? || r.MissingSelection?) && r.moduleId == m
  {
  }

  lemma RootReportsMore(c: Census, p: Profile, ms: seq<Id>, m: Id)
    requires m !in ms
    ensures RootReportsFor(c, p, ms + [m]) ==
      RootReportsFor(c, p, ms) + RootReports(c, p, m, |Matching(p.roots, Itself, m)|)
    ensures RootReportsFor(c, p, ms) !! RootReports(c, p, m, |Matching(p.roots, Itself, m)|)
    ensures RootReportsFor(c, p, []) == {}
  {
    forall x
      ensures forall r ::
        r in RootReports(c, p, x, |Matching(p.roots, Itself, x)|) ==>
          r.DuplicateRoot? || r.UnknownRoot? || r.MissingSelection?
      ensures forall r :: r in RootReports(c, p, x, |Matching(p.roots, Itself, x)|) ==> r.moduleId == x {
      RootReportsNamed(c, p, x, |Matching(p.roots, Itself, x)|);
    }
    hide RootReports, Matching;
    forall x ensures x in ms + [m] <==> x in ms || x == m {}
  }

  lemma RootReportsAll(c: Census, p: Profile, ms: seq<Id>, groups: map<Id, seq<Id>>)
    requires Grouped(p.roots, Itself, ms, groups)
    ensures RootReportsFor(c, p, ms) == RootsReports(c, p)
    ensures forall m :: m in p.roots <==> m in ms
  {
    hide RootReports, Matching;
    forall m ensures m in p.roots <==> m in ms { GroupedLookup(p.roots, Itself, ms, groups, m); }
  }

  /** The implementation that a root resolves to. */
  ghost function RootId(p: Profile, m: Id): Id {
    if |Rows(p, m)| > 0 then Rows(p, m)[0].implementationId else ""
  }

  /** One root module: repeated, unknown, or without a selection; and the implementation it resolves to. */
  method ResolveRoot(c: Census, p: Profile, m: Id, count: nat, groups: map<Id, seq<Selection>>)
    returns (added: seq<Candidate>, id: Option<Id>)
    requires m in groups ==> groups[m] == Rows(p, m) && groups[m] != [] && groups[m][0].moduleId == m
    requires m !in groups ==> Rows(p, m) == []
    ensures Exactly(added, RootReports(c, p, m, count))
    ensures id.Some? <==> |Rows(p, m)| == 1 && Resolves(c, Rows(p, m)[0])
    ensures id.Some? ==> id.value == RootId(p, m)
  {
    hide Matching;
    added, id := [], None;
    if count > 1 { added := added + [DuplicateRoot(m)]; }
    if c.moduleComplete && m !in c.modules {
      added := added + [UnknownRoot(m)];
    } else if c.moduleComplete && m !in groups {
      added := added + [MissingSelection(m)];
    }
    if m in groups && |groups[m]| == 1 {
      var known := Look(c.implementations, groups[m][0].implementationId);
      if known.Unique? && known.value.moduleId == m { id := Some(groups[m][0].implementationId); }
    }
  }

  lemma RowsKnown(p: Profile, order: seq<Id>, groups: map<Id, seq<Selection>>, m: Id)
    requires Grouped(p.selections, SelectedModule, order, groups)
    ensures m in groups ==> groups[m] == Rows(p, m) && groups[m] != [] && groups[m][0].moduleId == m
    ensures m !in groups ==> Rows(p, m) == []
  {
    GroupedLookup(p.selections, SelectedModule, order, groups, m);
    if m in groups { MatchingMember(p.selections, SelectedModule, m, groups[m][0]); }
  }

  ghost predicate RootsOf(p: Profile, ms: seq<Id>, ids: seq<Id>) {
    |ids| == |ms| && forall i :: 0 <= i < |ms| ==> ids[i] == RootId(p, ms[i])
  }

  method ResolveRoots(c: Census, p: Profile, order: seq<Id>, groups: map<Id, seq<Selection>>, selectionsResolved: bool)
    returns (added: seq<Candidate>, roots: Option<seq<Id>>)
    requires Grouped(p.selections, SelectedModule, order, groups) && (selectionsResolved <==> SelectionsResolved(c, p))
    ensures Exactly(added, RootsReports(c, p))
    ensures roots.Some? <==> RootsResolved(c, p)
    ensures roots.Some? ==> RootIds(p, roots.value)
  {
    hide RootReports, RootsReports, RootReportsFor, Resolves, Matching, SelectionsResolved, Exactly, RootsOf, RootId;
    var ms, counts := GroupBy(p.roots, Itself);
    var resolved, ids: seq<Id> := selectionsResolved, [];
    added := [];
    NoRootReports(c, p);
    assert ms[..0] == [];
    for k := 0 to |ms|
      invariant Exactly(added, RootReportsFor(c, p, ms[..k]))
      invariant resolved <==> SelectionsResolved(c, p) && forall i :: 0 <= i < k ==> RootResolved(c, p, ms[i])
      invariant resolved ==> RootsOf(p, ms[..k], ids)
    {
      var m := ms[k];
      assert ms[..k + 1] == ms[..k] + [m] && m in counts && m !in ms[..k];
      RootReportsMore(c, p, ms[..k], m);
      RowsKnown(p, order, groups, m);
      var more, id := ResolveRoot(c, p, m, |counts[m]|, groups);
      ExactlyBoth(added, RootReportsFor(c, p, ms[..k]), more, RootReports(c, p, m, |counts[m]|));
      added := added + more;
      if |counts[m]| > 1 { resolved := false; }
      if id.Some? { RootsOfMore(p, ms[..k], ids, m); ids := ids + [id.value]; } else { resolved := false; }
    }
    assert ms[..|ms|] == ms;
    RootReportsAll(c, p, ms, counts);
    if resolved { RootIdsOf(c, p, ms, ids); }
    roots := if resolved then Some(Sort(TextLe, ids)) else None;
  }

  lemma NoRootReports(c: Census, p: Profile)
    ensures Exactly([], RootReportsFor(c, p, [])) && RootsOf(p, [], [])
  {
  }

  lemma RootsOfMore(p: Profile, ms: seq<Id>, ids: seq<Id>, m: Id)
    ensures RootsOf(p, ms, ids) ==> RootsOf(p, ms + [m], ids + [RootId(p, m)])
  {
  }

  lemma RootIdsOf(c: Census, p: Profile, ms: seq<Id>, ids: seq<Id>)
    requires RootsOf(p, ms, ids) && (forall i :: 0 <= i < |ms| ==> RootResolved(c, p, ms[i]))
      && forall m :: m in p.roots <==> m in ms
    ensures RootIds(p, Sort(TextLe, ids))
  {
    TextOrder();
    SortCorrect(TextLe, ids);
    MembersOfMultiset(Sort(TextLe, ids), ids);
    hide Matching, Sort, SortedBy;
    forall id | id in ids ensures exists s :: s in p.selections && s.moduleId in p.roots && s.implementationId == id {
      var i :| 0 <= i < |ids| && ids[i] == id;
      assert RootResolved(c, p, ms[i]) && ms[i] in p.roots;
      MatchingMember(p.selections, SelectedModule, ms[i], Rows(p, ms[i])[0]);
    }
    forall s | s in p.selections && s.moduleId in p.roots ensures s.implementationId in ids {
      var i :| 0 <= i < |ms| && ms[i] == s.moduleId;
      assert RootResolved(c, p, ms[i]);
      MatchingMember(p.selections, SelectedModule, ms[i], s);
    }
  }

  // ---------- the selected implementations ----------

  lemma SelectedIds(p: Profile, order: seq<Id>, groups: map<Id, seq<Selection>>, sorted: seq<Id>)
    requires Grouped(p.selections, ImplementationSelected, order, groups) && sorted == Sort(TextLe, order)
    ensures SortedBy(TextLe, sorted) && Distinct(sorted) && forall id :: id in sorted <==> IsSelected(p, id)
  {
    TextOrder();
    SortCorrect(TextLe, order);
    DistinctPermutation(order, sorted);
    MembersOfMultiset(sorted, order);
    forall id ensures id in sorted <==> IsSelected(p, id) {
      GroupedLookup(p.selections, ImplementationSelected, order, groups, id);
    }
  }

  method ResolveNodes(ids: seq<Id>, c: Census) returns (nodes: Option<seq<Declared>>)
    ensures nodes.Some? <==> forall id :: id in ids ==> Look(c.implementations, id).Unique?
    ensures nodes.Some? ==> |nodes.value| == |ids| && forall i ::
      0 <= i < |ids| ==> Look(c.implementations, ids[i]) == Unique(nodes.value[i])
  {
    var result: seq<Declared> := [];
    for i := 0 to |ids|
      invariant |result| == i && forall j :: 0 <= j < i ==> Look(c.implementations, ids[j]) == Unique(result[j])
    {
      var known := Look(c.implementations, ids[i]);
      if !known.Unique? { return None; }
      result := result + [known.value];
    }
    return Some(result);
  }

  lemma ResolvedNodes(c: Census, p: Profile, ids: seq<Id>)
    requires RootsResolved(c, p) && forall id :: id in ids <==> IsSelected(p, id)
    ensures forall id :: id in ids ==> Look(c.implementations, id).Unique?
  {
    forall id | id in ids ensures Look(c.implementations, id).Unique? {
      var s :| s in p.selections && s.implementationId == id;
      assert Resolves(c, s);
    }
  }

  method CreateProfileCensus(c: Census, p: Profile) returns (s: Selected, added: seq<Candidate>)
    ensures SelectedOf(c, p, s)
    ensures Exactly(added, ProfileReports(c, p))
  {
    hide SelectionReports, RootsReports, RootsResolved, SelectionsResolved, Grouped, IsSelected, RootIds;
    var order, groups := GroupBy(p.selections, SelectedModule);
    var first, resolved := ValidateSelectionGroups(c, p, order, groups);
    var selected, rows := GroupBy(p.selections, ImplementationSelected);
    var ids := Sort(TextLe, selected);
    SelectedIds(p, selected, rows, ids);
    var nodes := ResolveNodes(ids, c);
    var second, roots := ResolveRoots(c, p, order, groups, resolved);
    if roots.Some? { ResolvedNodes(c, p, ids); }
    KindsApart(c, p);
    ExactlyBoth(first, SelectionReports(c, p), second, RootsReports(c, p));
    added := first + second;
    s := Selected(ids, nodes, if nodes.None? then None else roots);
  }

  lemma KindsApart(c: Census, p: Profile)
    ensures SelectionReports(c, p) !! RootsReports(c, p)
  {
  }
}
