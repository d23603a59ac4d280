/** What is declared, and what is declared twice (declaration-census.ts). */
module DeclarationCensus {
  import opened Sequences
  import opened Text
  import opened Composition
  import opened Candidates

  /** One implementation as the later stages look it up. */
  datatype Declared = Declared(implementationId: Id, moduleId: Id, capabilities: map<Id, Found<Capability>>,
    slots: map<Id, Found<Slot>>, slotCount: nat)

  datatype Census = Census(implementations: map<Id, Found<Declared>>, modules: set<Id>, identityComplete: bool,
    moduleComplete: bool)

  function Look<T>(index: map<Id, Found<T>>, id: Id): Found<T> {
    if id in index then index[id] else Absent
  }

  // ---------- the index of a list ----------

  ghost function Indexed<T>(xs: seq<T>, key: T -> Id): map<Id, Found<T>> {
    map id | id in (set x | x in xs :: key(x)) :: FindOne(xs, key, id)
  }

  lemma IndexedLooks<T>(xs: seq<T>, key: T -> Id, id: Id)
    ensures Look(Indexed(xs, key), id) == FindOne(xs, key, id)
  {
    FindOneMeans(xs, key, id);
  }

  lemma FindOneMore<T>(xs: seq<T>, key: T -> Id, x: T, id: Id)
    ensures FindOne(xs + [x], key, id) ==
            if key(x) != id then FindOne(xs, key, id)
            else if FindOne(xs, key, id) == Absent then Unique(x)
            else Ambiguous
  {
    assert (xs + [x])[..|xs|] == xs;
  }

  method UniqueIndex<T>(xs: seq<T>, key: T -> Id) returns (index: map<Id, Found<T>>)
    ensures index == Indexed(xs, key)
  {
    index := map[];
    for i := 0 to |xs|
      invariant index == Indexed(xs[..i], key)
    {
      var x := xs[i];
      assert xs[..i + 1] == xs[..i] + [x];
      ghost var before := index;
      index := index[key(x) := if key(x) in index then Ambiguous else Unique(x)];
      forall id ensures id in index <==> id in Indexed(xs[..i + 1], key) {
        FindOneMeans(xs[..i], key, id);
        FindOneMeans(xs[..i + 1], key, id);
      }
      forall id | id in index ensures index[id] == FindOne(xs[..i + 1], key, id) {
        FindOneMore(xs[..i], key, x, id);
        IndexedLooks(xs[..i], key, id);
        FindOneMeans(xs[..i], key, id);
      }
    }
    assert xs[..|xs|] == xs;
  }

  // ---------- repeated identities inside one declaration ----------

  function IdsOf<T>(xs: seq<T>, key: T -> Id): (r: seq<Id>)
    ensures |r| == |xs| && forall i :: 0 <= i < |xs| ==> r[i] == key(xs[i])
  {
    seq(|xs|, i requires 0 <= i < |xs| => key(xs[i]))
  }

  ghost predicate RepeatsAt(sorted: seq<Id>, i: nat) {
    0 < i < |sorted| && sorted[i] == sorted[i - 1]
  }

  /** The positions below n, in a sorted list, that repeat the identity before them. */
  ghost function RepeatsBelow(sorted: seq<Id>, n: nat): set<nat> {
    set i: nat | i < n && RepeatsAt(sorted, i)
  }

  ghost function Repeats(sorted: seq<Id>): set<nat> {
    RepeatsBelow(sorted, |sorted|)
  }

  function SortedIds<T>(xs: seq<T>, key: T -> Id): seq<Id> {
    Sort(TextLe, IdsOf(xs, key))
  }

  ghost function RepeatedCapabilities(group: seq<Declaration>): set<nat> {
    set d, i | d in group && i in Repeats(SortedIds(d.capabilities, CapabilityIdOf)) :: i
  }

  ghost function RepeatedSlots(group: seq<Declaration>): set<(Id, nat)> {
    set d, p | d in group && p in SlotRepeats(SortedIds(d.slots, SlotIdOf)) :: p
  }

  /** What one implementation identity has declared twice. */
  ghost function GroupReports(id: Id, group: seq<Declaration>): set<Candidate> {
    (if |group| > 1 then {DuplicateImplementation(id)} else {})
    + CapabilityReports(id, RepeatedCapabilities(group)) + SlotReports(id, RepeatedSlots(group))
  }

  ghost function CensusReports(ds: seq<Declaration>): set<Candidate> {
    set d, c | d in ds && c in GroupReports(d.implementationId, Matching(ds, ImplementationOf, d.implementationId)) :: c
  }

  ghost function DeclaredOf(d: Declaration): Declared {
    Declared(d.implementationId, d.moduleId, Indexed(d.capabilities, CapabilityIdOf),
      Indexed(d.slots, SlotIdOf), |d.slots|)
  }

  ghost function DeclaredFor(ds: seq<Declaration>, id: Id): Found<Declared> {
    match FindOne(ds, ImplementationOf, id)
    case Absent => Absent
    case Ambiguous => Ambiguous
    case Unique(d) => Unique(DeclaredOf(d))
  }

  ghost predicate IdentitiesUnique(ds: seq<Declaration>) {
    forall id :: FindOne(ds, ImplementationOf, id) != Ambiguous
  }

  ghost predicate CensusOf(ds: seq<Declaration>, all: bool, c: Census) {
    && (forall id :: Look(c.implementations, id) == DeclaredFor(ds, id))
    && (forall id :: id in c.implementations ==> c.implementations[id] != Absent)
    && (forall m :: m in c.modules <==> exists d :: d in ds && d.moduleId == m)
    && (c.identityComplete <==> all && IdentitiesUnique(ds)) && c.moduleComplete == all
  }

  // ---------- the census ----------

  ghost function CapabilityReports(id: Id, seen: set<nat>): set<Candidate> {
    set i | i in seen :: DuplicateCapability(id, i)
  }

  ghost function SlotReports(id: Id, seen: set<(Id, nat)>): set<Candidate> {
    set p | p in seen :: DuplicateSlot(id, p.0, p.1)
  }

  ghost function SlotRepeatsBelow(sorted: seq<Id>, n: nat): set<(Id, nat)>
    requires n <= |sorted|
  {
    set i | i in RepeatsBelow(sorted, n) :: (sorted[i], i)
  }

  ghost function SlotRepeats(sorted: seq<Id>): set<(Id, nat)> {
    SlotRepeatsBelow(sorted, |sorted|)
  }

  /** The repeated positions of one sorted list that have not been seen; each is reported. */
  method NewCapabilities(id: Id, sorted: seq<Id>, seen: set<nat>, added: seq<Candidate>, ghost reports: set<Candidate>)
    returns (seen': set<nat>, added': seq<Candidate>)
    requires Exactly(added, reports + CapabilityReports(id, seen))
      && forall c :: c in reports ==> !c.DuplicateCapability?
    ensures seen' == seen + Repeats(sorted)
    ensures Exactly(added', reports + CapabilityReports(id, seen'))
  {
    seen', added' := seen, added;
    var index := 1;
    if sorted == [] { return; }
    while index < |sorted|
      invariant 1 <= index <= |sorted|
      invariant seen' == seen + RepeatsBelow(sorted, index)
      invariant Exactly(added', reports + CapabilityReports(id, seen'))
    {
      if sorted[index] == sorted[index - 1] && index !in seen' {
        ExactlyOne(added', reports + CapabilityReports(id, seen'), DuplicateCapability(id, index));
        assert CapabilityReports(id, seen' + {index}) ==
          CapabilityReports(id, seen') + {DuplicateCapability(id, index)};
        seen' := seen' + {index};
        added' := added' + [DuplicateCapability(id, index)];
      }
      assert RepeatsBelow(sorted, index + 1) == RepeatsBelow(sorted, index)
        + if RepeatsAt(sorted, index) then {index} else {};
      index := index + 1;
    }
  }

  method NewSlots(id: Id, sorted: seq<Id>, seen: set<(Id, nat)>, added: seq<Candidate>, ghost reports: set<Candidate>)
    returns (seen': set<(Id, nat)>, added': seq<Candidate>)
    requires Exactly(added, reports + SlotReports(id, seen)) && forall c :: c in reports ==> !c.DuplicateSlot?
    ensures seen' == seen + SlotRepeats(sorted)
    ensures Exactly(added', reports + SlotReports(id, seen'))
  {
    seen', added' := seen, added;
    var index := 1;
    if sorted == [] { return; }
    while index < |sorted|
      invariant 1 <= index <= |sorted|
      invariant seen' == seen + SlotRepeatsBelow(sorted, index)
      invariant Exactly(added', reports + SlotReports(id, seen'))
    {
      var slotId := sorted[index];
      if slotId == sorted[index - 1] && (slotId, index) !in seen' {
        ExactlyOne(added', reports + SlotReports(id, seen'), DuplicateSlot(id, slotId, index));
        assert SlotReports(id, seen' + {(slotId, index)}) ==
          SlotReports(id, seen') + {DuplicateSlot(id, slotId, index)};
        seen' := seen' + {(slotId, index)};
        added' := added' + [DuplicateSlot(id, slotId, index)];
      }
      assert RepeatsBelow(sorted, index + 1) == RepeatsBelow(sorted, index)
        + if RepeatsAt(sorted, index) then {index} else {};
      assert SlotRepeatsBelow(sorted, index + 1) == SlotRepeatsBelow(sorted, index)
        + if RepeatsAt(sorted, index) then {(slotId, index)} else {};
      index := index + 1;
    }
  }

  lemma RepeatsMore(group: seq<Declaration>, d: Declaration)
    ensures RepeatedCapabilities(group + [d]) ==
      RepeatedCapabilities(group) + Repeats(SortedIds(d.capabilities, CapabilityIdOf))
    ensures RepeatedSlots(group + [d]) == RepeatedSlots(group) + SlotRepeats(SortedIds(d.slots, SlotIdOf))
  {
    hide Repeats, SlotRepeats, SortedIds;
    forall e ensures e in group + [d] <==> e in group || e == d {}
  }

  /** One implementation identity: how often it is declared, and what its declarations declare twice. */
  method GroupCensus(id: Id, group: seq<Declaration>) returns (added: seq<Candidate>, declared: Found<Declared>)
    requires group != []
    ensures Exactly(added, GroupReports(id, group))
    ensures declared == if |group| == 1 then Unique(DeclaredOf(group[0])) else Ambiguous
  {
    hide Repeats, SlotRepeats, SortedIds, RepeatedCapabilities, RepeatedSlots, CapabilityReports, SlotReports, Indexed;
    added, declared := [], Ambiguous;
    if |group| > 1 { added := [DuplicateImplementation(id)]; }
    ghost var base := if |group| > 1 then {DuplicateImplementation(id)} else {};
    var duplicateCapabilities: set<nat>, duplicateSlots: set<(Id, nat)> := {}, {};
    NoRepeats(id);
    assert group[..0] == [];
    for k := 0 to |group|
      invariant declared == if |group| == 1 && k == 1 then Unique(DeclaredOf(group[0])) else Ambiguous
      invariant duplicateCapabilities == RepeatedCapabilities(group[..k]) && duplicateSlots == RepeatedSlots(group[..k])
      invariant Exactly(added, base + CapabilityReports(id, duplicateCapabilities) + SlotReports(id, duplicateSlots))
    {
      var d := group[k];
      assert group[..k + 1] == group[..k] + [d];
      RepeatsMore(group[..k], d);
      ReportKinds(id, duplicateCapabilities, duplicateSlots);
      Swap(base, CapabilityReports(id, duplicateCapabilities), SlotReports(id, duplicateSlots));
      duplicateCapabilities, added :=
        NewCapabilities(id, SortedIds(d.capabilities, CapabilityIdOf), duplicateCapabilities, added,
          base + SlotReports(id, duplicateSlots));
      ReportKinds(id, duplicateCapabilities, duplicateSlots);
      Swap(base, CapabilityReports(id, duplicateCapabilities), SlotReports(id, duplicateSlots));
      duplicateSlots, added :=
        NewSlots(id, SortedIds(d.slots, SlotIdOf), duplicateSlots, added,
          base + CapabilityReports(id, duplicateCapabilities));
      if |group| == 1 {
        var capabilities := UniqueIndex(d.capabilities, CapabilityIdOf);
        var slots := UniqueIndex(d.slots, SlotIdOf);
        declared := Unique(Declared(d.implementationId, d.moduleId, capabilities, slots, |d.slots|));
      }
    }
    assert group[..|group|] == group;
  }

  lemma NoRepeats(id: Id)
    ensures RepeatedCapabilities([]) == {}
    ensures RepeatedSlots([]) == {}
    ensures CapabilityReports(id, {}) == {}
    ensures SlotReports(id, {}) == {}
  {
  }

  lemma Swap(a: set<Candidate>, b: set<Candidate>, c: set<Candidate>)
    ensures a + b + c == a + c + b
  {
  }

  lemma ReportKinds(id: Id, capabilities: set<nat>, slots: set<(Id, nat)>)
    ensures forall c :: c in CapabilityReports(id, capabilities) ==> c.DuplicateCapability? && c.implementationId == id
    ensures forall c :: c in SlotReports(id, slots) ==> c.DuplicateSlot? && c.implementationId == id
  {
  }

  lemma GroupReportsNamed(id: Id, group: seq<Declaration>)
    ensures forall c ::
      c in GroupReports(id, group) ==>
        (c.DuplicateImplementation? || c.DuplicateCapability? || c.DuplicateSlot?) && c.implementationId == id
  {
    ReportKinds(id, RepeatedCapabilities(group), RepeatedSlots(group));
    hide CapabilityReports, SlotReports, RepeatedCapabilities, RepeatedSlots;
  }

  ghost function ReportsFor(ds: seq<Declaration>, ids: seq<Id>): set<Candidate> {
    set id, c | id in ids && c in GroupReports(id, Matching(ds, ImplementationOf, id)) :: c
  }

  lemma ReportsForMore(ds: seq<Declaration>, ids: seq<Id>, id: Id)
    requires id !in ids
    ensures ReportsFor(ds, ids + [id]) == ReportsFor(ds, ids) + GroupReports(id, Matching(ds, ImplementationOf, id))
    ensures ReportsFor(ds, ids) !! GroupReports(id, Matching(ds, ImplementationOf, id))
  {
    hide GroupReports;
    GroupReportsNamed(id, Matching(ds, ImplementationOf, id));
    forall i | i in ids { GroupReportsNamed(i, Matching(ds, ImplementationOf, i)); }
    forall i ensures i in ids + [id] <==> i in ids || i == id {}
  }

  lemma ReportsForAll(ds: seq<Declaration>, order: seq<Id>, groups: map<Id, seq<Declaration>>)
    requires Grouped(ds, ImplementationOf, order, groups)
    ensures ReportsFor(ds, order) == CensusReports(ds)
  {
    hide GroupReports;
    forall c | c in ReportsFor(ds, order) ensures c in CensusReports(ds) {
      var id :| id in order && c in GroupReports(id, Matching(ds, ImplementationOf, id));
      GroupedLookup(ds, ImplementationOf, order, groups, id);
    }
    forall c | c in CensusReports(ds) ensures c in ReportsFor(ds, order) {
      var d :| d in ds && c in GroupReports(d.implementationId, Matching(ds, ImplementationOf, d.implementationId));
      assert ImplementationOf(d) in groups;
    }
  }

  ghost predicate ModulesOf(ds: seq<Declaration>, modules: set<Id>) {
    forall m :: m in modules <==> exists d :: d in ds && d.moduleId == m
  }

  ghost predicate NoneAmbiguous(index: map<Id, Found<Declared>>) {
    forall id :: id in index ==> index[id] != Ambiguous
  }

  ghost predicate DeclaredUpTo(ds: seq<Declaration>, ids: seq<Id>, index: map<Id, Found<Declared>>) {
    && (forall id :: id in index <==> id in ids)
    && (forall id :: id in index ==> index[id] == DeclaredFor(ds, id) != Absent)
  }

  lemma DeclaredMore(ds: seq<Declaration>, ids: seq<Id>, index: map<Id, Found<Declared>>, id: Id,
                     group: seq<Declaration>, declared: Found<Declared>)
    requires DeclaredUpTo(ds, ids, index) && id !in ids && group == Matching(ds, ImplementationOf, id) && group != []
    requires declared == if |group| == 1 then Unique(DeclaredOf(group[0])) else Ambiguous
    ensures DeclaredUpTo(ds, ids + [id], index[id := declared])
    ensures NoneAmbiguous(index[id := declared]) <==> NoneAmbiguous(index) && |group| == 1
  {
    var more := index[id := declared];
    assert forall x :: x in index ==> x in more && more[x] == index[x];
    assert id in more && more[id] == declared;
  }

  lemma CensusDone(ds: seq<Declaration>, all: bool, order: seq<Id>, groups: map<Id, seq<Declaration>>, c: Census)
    requires Grouped(ds, ImplementationOf, order, groups)
    requires DeclaredUpTo(ds, order, c.implementations)
    requires ModulesOf(ds, c.modules)
    requires c.identityComplete == (all && NoneAmbiguous(c.implementations)) && c.moduleComplete == all
    ensures CensusOf(ds, all, c)
  {
    hide Indexed;
    forall id ensures Look(c.implementations, id) == DeclaredFor(ds, id) {
      GroupedLookup(ds, ImplementationOf, order, groups, id);
    }
    assert IdentitiesUnique(ds) <==> NoneAmbiguous(c.implementations) by {
      forall id ensures FindOne(ds, ImplementationOf, id) == Ambiguous <==> Look(c.implementations, id) == Ambiguous {}
    }
  }

  method CreateDeclarationCensus(ds: seq<Declaration>, all: bool) returns (c: Census, added: seq<Candidate>)
    ensures CensusOf(ds, all, c)
    ensures Exactly(added, CensusReports(ds))
  {
    hide GroupReports, Indexed, CensusReports, ReportsFor, CensusOf, DeclaredUpTo, NoneAmbiguous, Exactly, Matching,
         ModulesOf, DeclaredOf;
    var modules: set<Id> := {};
    NoModules(ds);
    for i := 0 to |ds|
      invariant ModulesOf(ds[..i], modules)
    {
      ModulesMore(ds, i, modules);
      modules := modules + {ds[i].moduleId};
    }
    assert ds[..|ds|] == ds;
    var order, groups := GroupBy(ds, ImplementationOf);
    var implementations: map<Id, Found<Declared>>, identitiesUnique := map[], true;
    added := [];
    NoReports(ds);
    assert order[..0] == [];
    for k := 0 to |order|
      invariant Exactly(added, ReportsFor(ds, order[..k]))
      invariant DeclaredUpTo(ds, order[..k], implementations)
      invariant identitiesUnique <==> NoneAmbiguous(implementations)
    {
      var id := order[k];
      assert order[..k + 1] == order[..k] + [id] && id in groups && id !in order[..k];
      ReportsForMore(ds, order[..k], id);
      var more, declared := GroupCensus(id, groups[id]);
      ExactlyBoth(added, ReportsFor(ds, order[..k]), more, GroupReports(id, groups[id]));
      added := added + more;
      DeclaredMore(ds, order[..k], implementations, id, groups[id], declared);
      if |groups[id]| > 1 { identitiesUnique := false; }
      implementations := implementations[id := declared];
    }
    assert order[..|order|] == order;
    ReportsForAll(ds, order, groups);
    c := Census(implementations, modules, all && identitiesUnique, all);
    CensusDone(ds, all, order, groups, c);
  }

  lemma NoModules(ds: seq<Declaration>)
    ensures ModulesOf(ds[..0], {})
  {
  }

  lemma NoReports(ds: seq<Declaration>)
    ensures Exactly([], ReportsFor(ds, [])) && DeclaredUpTo(ds, [], map[]) && NoneAmbiguous(map[])
  {
  }

  lemma ModulesMore(ds: seq<Declaration>, i: nat, modules: set<Id>)
    requires i < |ds| && ModulesOf(ds[..i], modules)
    ensures ModulesOf(ds[..i + 1], modules + {ds[i].moduleId})
  {
    assert ds[..i + 1] == ds[..i] + [ds[i]];
    forall d ensures d in ds[..i + 1] <==> d in ds[..i] || d == ds[i] {}
    forall m | m in modules ensures exists d :: d in ds[..i + 1] && d.moduleId == m {
      var d :| d in ds[..i] && d.moduleId == m;
      assert d in ds[..i + 1];
    }
    assert ds[i] in ds[..i + 1];
  }
}
