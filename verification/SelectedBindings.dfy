/** The binding rows of a profile against what is declared and selected (binding-record.ts, selected-bindings.ts). */
module SelectedBindings {
  import opened Sequences
  import opened Text
  import opened Composition
  import opened Candidates
  import opened DeclarationCensus
  import opened ProfileCensus

  // ---------- one row ----------

  ghost predicate Allowed(bounds: Bounds, count: nat) {
    match bounds
    case Many(min, max) => min <= count <= max
    case Required => count == 1
    case Optional => count <= 1
  }

  ghost function KindName(bounds: Bounds): SlotKind {
    match bounds case Many(_, _) => ManySlot case Required => RequiredSlot case Optional => OptionalSlot
  }

  /** The stages before have fixed what is declared and what is selected. */
  datatype Context = Context(census: Census, selected: set<Id>)

  ghost function CapabilityReportsOf(b: Binding, slot: Slot, provider: Id, d: Declared): set<Candidate> {
    match Look(d.capabilities, slot.capabilityId)
    case Absent => {CapabilityMissing(b.consumer, b.slotId, provider)}
    case Ambiguous => {}
    case Unique(cap) =>
      if cap.token != slot.token then {CompatibilityMismatch(b.consumer, b.slotId, provider, slot.token, cap.token)}
      else {}
  }

  ghost function ProviderReports(x: Context, b: Binding, slot: Slot, provider: Id): set<Candidate> {
    (if |Matching(b.providers, Itself, provider)| > 1 then {DuplicateProvider(b.consumer, b.slotId, provider)} else {})
    + match Look(x.census.implementations, provider)
      case Absent => if x.census.identityComplete then {UnknownProvider(b.consumer, b.slotId, provider)} else {}
      case Ambiguous => {}
      case Unique(d) =>
        (if provider !in x.selected then {ProviderNotSelected(b.consumer, b.slotId, provider)} else {})
          + CapabilityReportsOf(b, slot, provider, d)
  }

  ghost function ProvidersReports(x: Context, b: Binding, slot: Slot, providers: seq<Id>): set<Candidate> {
    set p, r | p in providers && r in ProviderReports(x, b, slot, p) :: r
  }

  ghost function CardinalityReports(b: Binding, slot: Slot): set<Candidate> {
    if Allowed(slot.bounds, |b.providers|) then {}
    else {CardinalityMismatch(b.consumer, b.slotId, KindName(slot.bounds), |b.providers|)}
  }

  ghost function RecordReports(x: Context, b: Binding, slot: Slot): set<Candidate> {
    CardinalityReports(b, slot) + ProvidersReports(x, b, slot, b.providers)
  }

  ghost predicate ProviderValid(x: Context, b: Binding, slot: Slot, provider: Id) {
    && |Matching(b.providers, Itself, provider)| == 1
    && provider in x.selected
    && Look(x.census.implementations, provider).Unique?
    && var cap := Look(Look(x.census.implementations, provider).value.capabilities, slot.capabilityId);
       cap.Unique? && cap.value.token == slot.token
  }

  /**
   * A row satisfies its slot: as many providers as it asks for, all different, selected, and with the capability
   * it names.
   */
  ghost predicate RecordValid(x: Context, b: Binding, slot: Slot) {
    Allowed(slot.bounds, |b.providers|) && forall p :: p in b.providers ==> ProviderValid(x, b, slot, p)
  }

  lemma ProviderReportsNamed(x: Context, b: Binding, slot: Slot, provider: Id)
    ensures forall r :: r in ProviderReports(x, b, slot, provider) ==>
      OfRows(r) && !r.CardinalityMismatch? && r.provider == provider && r.consumer == b.consumer && r.slotId == b.slotId
  {
  }

  lemma ProvidersMore(x: Context, b: Binding, slot: Slot, ps: seq<Id>, p: Id)
    requires p !in ps
    ensures ProvidersReports(x, b, slot, ps + [p]) == ProvidersReports(x, b, slot, ps) + ProviderReports(x, b, slot, p)
    ensures ProvidersReports(x, b, slot, ps) !! ProviderReports(x, b, slot, p)
    ensures ProvidersReports(x, b, slot, []) == {}
    ensures forall r :: r in ProvidersReports(x, b, slot, ps) ==> !r.CardinalityMismatch?
  {
    forall q
      ensures forall r ::
        r in ProviderReports(x, b, slot, q) ==> OfRows(r) && !r.CardinalityMismatch? && r.provider == q {
      ProviderReportsNamed(x, b, slot, q);
    }
    hide ProviderReports;
    forall q ensures q in ps + [p] <==> q in ps || q == p {}
  }

  /** One provider of a row, with how often it occurs. */
  method ValidateProvider(x: Context, b: Binding, slot: Slot, provider: Id, occurrences: nat)
    returns (added: seq<Candidate>, valid: bool)
    requires occurrences == |Matching(b.providers, Itself, provider)| > 0
    ensures Exactly(added, ProviderReports(x, b, slot, provider))
    ensures valid <==> ProviderValid(x, b, slot, provider)
  {
    hide Matching;
    added, valid := [], true;
    if occurrences > 1 { added, valid := [DuplicateProvider(b.consumer, b.slotId, provider)], false; }
    var known := Look(x.census.implementations, provider);
    if !known.Unique? {
      valid := false;
      if known.Absent? && x.census.identityComplete {
        added := added + [UnknownProvider(b.consumer, b.slotId, provider)];
      }
      return;
    }
    if provider !in x.selected {
      added, valid := added + [ProviderNotSelected(b.consumer, b.slotId, provider)], false;
    }
    var capability := Look(known.value.capabilities, slot.capabilityId);
    if !capability.Unique? {
      valid := false;
      if capability.Absent? { added := added + [CapabilityMissing(b.consumer, b.slotId, provider)]; }
      return;
    }
    if capability.value.token != slot.token {
      added, valid :=
        added + [CompatibilityMismatch(b.consumer, b.slotId, provider, slot.token, capability.value.token)], false;
    }
  }

  lemma ProvidersAll(x: Context, b: Binding, slot: Slot, order: seq<Id>, groups: map<Id, seq<Id>>)
    requires Grouped(b.providers, Itself, order, groups)
    ensures forall p :: p in b.providers <==> p in order
    ensures ProvidersReports(x, b, slot, order) == ProvidersReports(x, b, slot, b.providers)
  {
    hide ProviderReports, Matching;
    forall p ensures p in b.providers <==> p in order { GroupedLookup(b.providers, Itself, order, groups, p); }
  }

  method ValidateRecord(x: Context, b: Binding, slot: Slot) returns (added: seq<Candidate>, valid: bool)
    ensures Exactly(added, RecordReports(x, b, slot))
    ensures valid <==> RecordValid(x, b, slot)
  {
    hide ProviderReports, ProvidersReports, ProviderValid, Matching, Exactly, AllValid;
    ghost var base := CardinalityReports(b, slot);
    added, valid := CheckCardinality(b, slot);
    var order, groups := GroupBy(b.providers, Itself);
    NoProviders(x, b, slot);
    assert order[..0] == [] && base + {} == base;
    for k := 0 to |order|
      invariant Exactly(added, base + ProvidersReports(x, b, slot, order[..k]))
      invariant valid <==> Allowed(slot.bounds, |b.providers|) && AllValid(x, b, slot, order[..k])
    {
      var p := order[k];
      assert order[..k + 1] == order[..k] + [p] && p in groups && p !in order[..k];
      ProvidersMore(x, b, slot, order[..k], p);
      ProviderReportsNamed(x, b, slot, p);
      AllValidMore(x, b, slot, order[..k], p);
      var more, one := ValidateProvider(x, b, slot, p, |groups[p]|);
      ExactlyBoth(added, base + ProvidersReports(x, b, slot, order[..k]), more, ProviderReports(x, b, slot, p));
      assert base + ProvidersReports(x, b, slot, order[..k + 1]) ==
        base + ProvidersReports(x, b, slot, order[..k]) + ProviderReports(x, b, slot, p);
      added := added + more;
      if !one { valid := false; }
    }
    assert order[..|order|] == order;
    ProvidersAll(x, b, slot, order, groups);
    AllValidIn(x, b, slot, order);
  }

  ghost predicate AllValid(x: Context, b: Binding, slot: Slot, ps: seq<Id>) {
    forall i :: 0 <= i < |ps| ==> ProviderValid(x, b, slot, ps[i])
  }

  lemma AllValidMore(x: Context, b: Binding, slot: Slot, ps: seq<Id>, p: Id)
    ensures AllValid(x, b, slot, ps + [p]) <==> AllValid(x, b, slot, ps) && ProviderValid(x, b, slot, p)
  {
    var more := ps + [p];
    hide ProviderValid;
    assert more[|ps|] == p && forall i :: 0 <= i < |ps| ==> more[i] == ps[i];
  }

  lemma AllValidIn(x: Context, b: Binding, slot: Slot, ps: seq<Id>)
    ensures AllValid(x, b, slot, ps) <==> forall p :: p in ps ==> ProviderValid(x, b, slot, p)
  {
    hide ProviderValid;
  }

  lemma NoProviders(x: Context, b: Binding, slot: Slot)
    ensures ProvidersReports(x, b, slot, []) == {} && AllValid(x, b, slot, [])
  {
  }

  method CheckCardinality(b: Binding, slot: Slot) returns (added: seq<Candidate>, valid: bool)
    ensures Exactly(added, CardinalityReports(b, slot)) && (valid <==> Allowed(slot.bounds, |b.providers|))
  {
    var kind, actual := OptionalSlot, |b.providers|;
    match slot.bounds {
      case Many(min, max) => kind, valid := ManySlot, actual >= min && actual <= max;
      case Required => kind, valid := RequiredSlot, actual == 1;
      case Optional => valid := actual <= 1;
    }
    added := if valid then [] else [CardinalityMismatch(b.consumer, b.slotId, kind, actual)];
  }

  /** A row without reports is valid unless something it names is ambiguous. */
  lemma NoReportsMeansValid(x: Context, b: Binding, slot: Slot)
    requires RecordReports(x, b, slot) == {} && x.census.identityComplete
    requires forall p :: p in b.providers ==> Look(x.census.implementations, p) != Ambiguous
    requires forall p, d ::
      p in b.providers && Look(x.census.implementations, p) == Unique(d) ==>
        Look(d.capabilities, slot.capabilityId) != Ambiguous
    ensures RecordValid(x, b, slot)
  {
    forall p | p in b.providers ensures ProviderValid(x, b, slot, p) {
      MatchingMember(b.providers, Itself, p, p);
      hide Matching;
      assert ProviderReports(x, b, slot, p) == {} by {
        assert forall r :: r in ProviderReports(x, b, slot, p) ==> r in RecordReports(x, b, slot);
      }
      assert DuplicateProvider(b.consumer, b.slotId, p) !in ProviderReports(x, b, slot, p);
      assert UnknownProvider(b.consumer, b.slotId, p) !in ProviderReports(x, b, slot, p);
      assert ProviderNotSelected(b.consumer, b.slotId, p) !in ProviderReports(x, b, slot, p);
      assert CapabilityMissing(b.consumer, b.slotId, p) !in ProviderReports(x, b, slot, p);
    }
    assert CardinalityReports(b, slot) == {} by {
      assert forall r :: r in CardinalityReports(b, slot) ==> r in RecordReports(x, b, slot);
    }
  }

  lemma ValidMeansNoReports(x: Context, b: Binding, slot: Slot)
    requires RecordValid(x, b, slot)
    ensures RecordReports(x, b, slot) == {}
  {
    hide Matching;
    forall p | p in b.providers ensures ProviderReports(x, b, slot, p) == {} { assert ProviderValid(x, b, slot, p); }
  }

  // ---------- the rows of one coordinate ----------

  ghost function RecordsReports(x: Context, records: seq<Binding>, slot: Slot): set<Candidate> {
    set b, r | b in records && r in RecordReports(x, b, slot) :: r
  }

  /** What tells the reports of one coordinate apart: the count, or the kind of failure and the provider. */
  datatype Key = Count(actual: nat) | Failure(kind: nat, provider: Id)

  function KeyOf(c: Candidate): Key {
    match c
    case CardinalityMismatch(_, _, _, n) => Count(n)
    case DuplicateProvider(_, _, p) => Failure(0, p)
    case UnknownProvider(_, _, p) => Failure(1, p)
    case ProviderNotSelected(_, _, p) => Failure(2, p)
    case CapabilityMissing(_, _, p) => Failure(3, p)
    case CompatibilityMismatch(_, _, p, _, _) => Failure(4, p)
    case _ => Failure(5, "")
  }

  /** Rows of one coordinate and one slot: a key names one report. */
  lemma KeyIdentifies(x: Context, a: Binding, b: Binding, slot: Slot, c: Candidate, d: Candidate)
    requires a.consumer == b.consumer && a.slotId == b.slotId
    requires c in RecordReports(x, a, slot) && d in RecordReports(x, b, slot) && KeyOf(c) == KeyOf(d)
    ensures c == d
  {
    hide ProviderReports, Allowed, KindName;
    if c in CardinalityReports(a, slot) {
      RowKinds(x, b, slot, d);
    } else {
      var p :| p in a.providers && c in ProviderReports(x, a, slot, p);
      ProviderReportsNamed(x, a, slot, p);
      if d !in CardinalityReports(b, slot) {
        var q :| q in b.providers && d in ProviderReports(x, b, slot, q);
        ProviderReportsNamed(x, b, slot, q);
        ProviderKey(x, a, b, slot, p, c, d);
      }
    }
  }

  lemma RowKinds(x: Context, b: Binding, slot: Slot, d: Candidate)
    requires d in RecordReports(x, b, slot)
    ensures d.CardinalityMismatch? ==> d in CardinalityReports(b, slot)
    ensures !d.CardinalityMismatch? ==> OfRows(d)
  {
    hide ProviderReports;
    if d !in CardinalityReports(b, slot) {
      var p :| p in b.providers && d in ProviderReports(x, b, slot, p);
      ProviderReportsNamed(x, b, slot, p);
    }
  }

  lemma ProviderKey(x: Context, a: Binding, b: Binding, slot: Slot, p: Id, c: Candidate, d: Candidate)
    requires a.consumer == b.consumer && a.slotId == b.slotId
    requires c in ProviderReports(x, a, slot, p) && d in ProviderReports(x, b, slot, p) && KeyOf(c) == KeyOf(d)
    ensures c == d
  {
    hide Matching;
  }

  ghost predicate SeenKeys(reports: set<Candidate>, seen: set<Key>) {
    forall k :: k in seen <==> exists c :: c in reports && KeyOf(c) == k
  }

  /** One row's reports, without those another row of the coordinate has made. */
  method Sink(x: Context, records: seq<Binding>, k: nat, slot: Slot, row: seq<Candidate>, seen: set<Key>,
              added: seq<Candidate>)
    returns (seen': set<Key>, added': seq<Candidate>)
    requires k < |records| && Exactly(row, RecordReports(x, records[k], slot)) && SameCoordinate(records)
    requires Exactly(added, RecordsReports(x, records[..k], slot))
    requires SeenKeys(RecordsReports(x, records[..k], slot), seen)
    ensures Exactly(added', RecordsReports(x, records[..k + 1], slot))
    ensures SeenKeys(RecordsReports(x, records[..k + 1], slot), seen')
  {
    hide RecordReports;
    ghost var before := RecordsReports(x, records[..k], slot);
    seen', added' := seen, added;
    assert before + Elements(row[..0]) == before;
    for i := 0 to |row|
      invariant Exactly(added', before + Elements(row[..i])) && SeenKeys(before + Elements(row[..i]), seen')
    {
      var c := row[i];
      assert row[..i + 1] == row[..i] + [c] && Elements(row[..i + 1]) == Elements(row[..i]) + {c};
      KnownByKey(x, records, k, slot, row, i);
      assert before + Elements(row[..i + 1]) == before + Elements(row[..i]) + {c};
      KeysMore(before + Elements(row[..i]), seen', c);
      if KeyOf(c) !in seen' {
        ExactlyOne(added', before + Elements(row[..i]), c);
        added' := added' + [c];
      }
      seen' := seen' + {KeyOf(c)};
    }
    assert row[..|row|] == row;
    RecordsMore(x, records, k, slot);
  }

  ghost predicate SameCoordinate(records: seq<Binding>) {
    forall i, j ::
      0 <= i < j < |records| ==> records[i].consumer == records[j].consumer && records[i].slotId == records[j].slotId
  }

  lemma KeysMore(reports: set<Candidate>, seen: set<Key>, c: Candidate)
    requires SeenKeys(reports, seen)
    ensures SeenKeys(reports + {c}, seen + {KeyOf(c)})
  {
    forall k | k in seen ensures exists d :: d in reports + {c} && KeyOf(d) == k {
      var d :| d in reports && KeyOf(d) == k;
      assert d in reports + {c};
    }
    assert c in reports + {c};
  }

  lemma RecordsMore(x: Context, records: seq<Binding>, k: nat, slot: Slot)
    requires k < |records|
    ensures RecordsReports(x, records[..k + 1], slot) ==
      RecordsReports(x, records[..k], slot) + RecordReports(x, records[k], slot)
  {
    hide RecordReports;
    assert records[..k + 1] == records[..k] + [records[k]];
    forall b ensures b in records[..k + 1] <==> b in records[..k] || b == records[k] {}
  }

  /** A report whose key has been seen has been made. */
  lemma KnownByKey(x: Context, records: seq<Binding>, k: nat, slot: Slot, row: seq<Candidate>, i: nat)
    requires k < |records| && i < |row| && Exactly(row, RecordReports(x, records[k], slot)) && SameCoordinate(records)
    ensures var known := RecordsReports(x, records[..k], slot) + Elements(row[..i]);
            row[i] in known <==> exists c :: c in known && KeyOf(c) == KeyOf(row[i])
  {
    hide RecordReports, KeyOf;
    var known := RecordsReports(x, records[..k], slot) + Elements(row[..i]);
    assert row[i] in Elements(row);
    if c :| c in known && KeyOf(c) == KeyOf(row[i]) {
      if c in row[..i] {
        assert c in Elements(row);
        KeyIdentifies(x, records[k], records[k], slot, c, row[i]);
      } else {
        var b :| b in records[..k] && c in RecordReports(x, b, slot);
        var j :| 0 <= j < k && records[j] == b;
        KeyIdentifies(x, b, records[k], slot, c, row[i]);
      }
    }
  }

  method ValidateRecords(x: Context, records: seq<Binding>, slot: Slot) returns (added: seq<Candidate>, valid: bool)
    requires records != [] && SameCoordinate(records)
    ensures Exactly(added, RecordsReports(x, records, slot))
    ensures valid <==> |records| == 1 && RecordValid(x, records[0], slot)
  {
    hide RecordsReports, RecordReports, RecordValid, SameCoordinate;
    added, valid := [], |records| == 1;
    var seen: set<Key> := {};
    NoRecords(x, slot);
    assert records[..0] == [];
    for k := 0 to |records|
      invariant Exactly(added, RecordsReports(x, records[..k], slot))
      invariant SeenKeys(RecordsReports(x, records[..k], slot), seen)
      invariant valid <==> |records| == 1 && (k == 0 || RecordValid(x, records[0], slot))
    {
      var row, one := ValidateRecord(x, records[k], slot);
      seen, added := Sink(x, records, k, slot, row, seen, added);
      if !one { valid := false; }
    }
    assert records[..|records|] == records;
  }

  lemma NoRecords(x: Context, slot: Slot)
    ensures RecordsReports(x, [], slot) == {} && SeenKeys({}, {}) && Exactly([], {})
  {
  }

  // ---------- the rows of one consumer ----------

  ghost function At(rows: seq<Binding>, slotId: Id): seq<Binding> {
    Matching(rows, BoundSlot, slotId)
  }

  ghost function Repeated(i: Id, rows: seq<Binding>, slotId: Id): set<Candidate> {
    if |At(rows, slotId)| > 1 then {DuplicateRecord(i, slotId)} else {}
  }

  ghost function SlotRowReports(x: Context, i: Id, d: Declared, rows: seq<Binding>, slotId: Id): set<Candidate> {
    match Look(d.slots, slotId)
    case Absent => if x.census.identityComplete then {UnknownSlot(i, slotId)} else {}
    case Ambiguous => {}
    case Unique(slot) => RecordsReports(x, At(rows, slotId), slot)
  }

  ghost function RepeatedFor(i: Id, rows: seq<Binding>, slots: seq<Id>): set<Candidate> {
    set s, r | s in slots && r in Repeated(i, rows, s) :: r
  }

  ghost function SlotsReports(x: Context, i: Id, d: Declared, rows: seq<Binding>, slots: seq<Id>): set<Candidate> {
    set s, r | s in slots && r in SlotRowReports(x, i, d, rows, s) :: r
  }

  ghost function SlotIds(rows: seq<Binding>): seq<Id> {
    IdsOf(rows, BoundSlot)
  }

  ghost function ConsumerReports(x: Context, i: Id, rows: seq<Binding>): set<Candidate> {
    RepeatedFor(i, rows, SlotIds(rows))
    + match Look(x.census.implementations, i)
      case Absent => if x.census.identityComplete then {UnknownConsumer(i)} else {}
      case Ambiguous => {}
      case Unique(d) => if i in x.selected then SlotsReports(x, i, d, rows, SlotIds(rows)) else {}
  }

  /** The one row of its coordinate, for a declared slot, and satisfying it. */
  ghost predicate SlotFilled(x: Context, d: Declared, rows: seq<Binding>, slotId: Id) {
    Look(d.slots, slotId).Unique? && |At(rows, slotId)| == 1
      && RecordValid(x, At(rows, slotId)[0], Look(d.slots, slotId).value)
  }

  ghost predicate RowsFill(x: Context, i: Id, rows: seq<Binding>) {
    Look(x.census.implementations, i).Unique?
      && forall s :: s in SlotIds(rows) ==> SlotFilled(x, Look(x.census.implementations, i).value, rows, s)
  }

  /** The rows that enter the plan and the graph, each with its slot. */
  ghost predicate ValidRow(x: Context, i: Id, rows: seq<Binding>, v: (Binding, Slot)) {
    && i in x.selected && Look(x.census.implementations, i).Unique? && v.0 in rows
    && var d := Look(x.census.implementations, i).value;
       SlotFilled(x, d, rows, v.0.slotId) && Look(d.slots, v.0.slotId) == Unique(v.1)
  }

  ghost predicate ValidRowsFor(x: Context, i: Id, rows: seq<Binding>, slots: seq<Id>, valid: seq<(Binding, Slot)>) {
    && (forall v :: v in valid <==> v.0.slotId in slots && ValidRow(x, i, rows, v))
    && (forall a, b :: 0 <= a < b < |valid| ==> valid[a].0.slotId != valid[b].0.slotId)
  }

  lemma RepeatedMore(i: Id, rows: seq<Binding>, slots: seq<Id>, s: Id)
    requires s !in slots
    ensures RepeatedFor(i, rows, slots + [s]) == RepeatedFor(i, rows, slots) + Repeated(i, rows, s)
    ensures DuplicateRecord(i, s) !in RepeatedFor(i, rows, slots) && RepeatedFor(i, rows, []) == {}
  {
    hide Matching;
    forall q ensures q in slots + [s] <==> q in slots || q == s {}
  }

  method RepeatedRecords(i: Id, rows: seq<Binding>, order: seq<Id>, groups: map<Id, seq<Binding>>)
    returns (added: seq<Candidate>, unique: bool)
    requires Grouped(rows, BoundSlot, order, groups)
    ensures Exactly(added, RepeatedFor(i, rows, order))
    ensures unique <==> forall s :: s in order ==> |At(rows, s)| == 1
  {
    hide Matching, RepeatedFor;
    added, unique := [], true;
    RepeatedMore(i, rows, [], "");
    assert order[..0] == [];
    for k := 0 to |order|
      invariant Exactly(added, RepeatedFor(i, rows, order[..k]))
      invariant unique <==> forall j :: 0 <= j < k ==> |At(rows, order[j])| == 1
    {
      var s := order[k];
      assert order[..k + 1] == order[..k] + [s] && s in groups && s !in order[..k];
      RepeatedMore(i, rows, order[..k], s);
      if |groups[s]| > 1 {
        ExactlyOne(added, RepeatedFor(i, rows, order[..k]), DuplicateRecord(i, s));
        added := added + [DuplicateRecord(i, s)];
        unique := false;
      }
      assert RepeatedFor(i, rows, order[..k]) + {} == RepeatedFor(i, rows, order[..k]);
    }
    assert order[..|order|] == order;
  }

  lemma SlotRowNamed(x: Context, i: Id, d: Declared, rows: seq<Binding>, s: Id)
    requires forall b :: b in rows ==> b.consumer == i
    ensures forall r ::
      r in SlotRowReports(x, i, d, rows, s) ==> (r.UnknownSlot? || OfRows(r)) && r.consumer == i && r.slotId == s
  {
    MatchingMembers(rows, BoundSlot, s);
    hide Matching, RecordReports;
    if Look(d.slots, s).Unique? {
      var slot := Look(d.slots, s).value;
      forall r | r in RecordsReports(x, At(rows, s), slot) ensures OfRows(r) && r.consumer == i && r.slotId == s {
        var b :| b in At(rows, s) && r in RecordReports(x, b, slot);
        RecordNamed(x, b, slot, r);
      }
    }
  }

  lemma RecordNamed(x: Context, b: Binding, slot: Slot, r: Candidate)
    requires r in RecordReports(x, b, slot)
    ensures OfRows(r) && r.consumer == b.consumer && r.slotId == b.slotId
  {
    hide ProviderReports, Allowed, KindName;
    if r !in CardinalityReports(b, slot) {
      var p :| p in b.providers && r in ProviderReports(x, b, slot, p);
      ProviderReportsNamed(x, b, slot, p);
    }
  }

  lemma SlotsMore(x: Context, i: Id, d: Declared, rows: seq<Binding>, slots: seq<Id>, s: Id)
    requires s !in slots && forall b :: b in rows ==> b.consumer == i
    ensures SlotsReports(x, i, d, rows, slots + [s]) ==
      SlotsReports(x, i, d, rows, slots) + SlotRowReports(x, i, d, rows, s)
    ensures SlotsReports(x, i, d, rows, slots) !! SlotRowReports(x, i, d, rows, s)
    ensures SlotsReports(x, i, d, rows, []) == {}
  {
    forall q
      ensures forall r ::
        r in SlotRowReports(x, i, d, rows, q) ==> (r.UnknownSlot? || OfRows(r)) && r.consumer == i && r.slotId == q {
      SlotRowNamed(x, i, d, rows, q);
    }
    hide SlotRowReports;
    forall q ensures q in slots + [s] <==> q in slots || q == s {}
  }

  lemma ValidRowsMore(x: Context, i: Id, d: Declared, rows: seq<Binding>, slots: seq<Id>, s: Id,
                      valid: seq<(Binding, Slot)>)
    requires s !in slots
    requires i in x.selected
    requires Look(x.census.implementations, i) == Unique(d)
    requires ValidRowsFor(x, i, rows, slots, valid)
    ensures SlotFilled(x, d, rows, s) ==>
      ValidRowsFor(x, i, rows, slots + [s], valid + [(At(rows, s)[0], Look(d.slots, s).value)])
    ensures !SlotFilled(x, d, rows, s) ==> ValidRowsFor(x, i, rows, slots + [s], valid)
  {
    MatchingMembers(rows, BoundSlot, s);
    hide Matching, RecordValid;
    forall q ensures q in slots + [s] <==> q in slots || q == s {}
    if SlotFilled(x, d, rows, s) {
      var v := (At(rows, s)[0], Look(d.slots, s).value);
      assert v.0 in At(rows, s);
      forall w ensures w in valid + [v] <==> w.0.slotId in slots + [s] && ValidRow(x, i, rows, w) {
        if w.0.slotId == s && ValidRow(x, i, rows, w) { assert w.0 in At(rows, s); }
      }
    }
  }

  /** The rows of a selected, declared consumer, slot by slot. */
  method FillSlots(x: Context, i: Id, d: Declared, rows: seq<Binding>, order: seq<Id>, groups: map<Id, seq<Binding>>)
    returns (added: seq<Candidate>, filled: bool, valid: seq<(Binding, Slot)>)
    requires Grouped(rows, BoundSlot, order, groups) && (forall b :: b in rows ==> b.consumer == i)
    requires i in x.selected && Look(x.census.implementations, i) == Unique(d)
    ensures Exactly(added, SlotsReports(x, i, d, rows, order))
    ensures filled <==> forall s :: s in order ==> SlotFilled(x, d, rows, s)
    ensures ValidRowsFor(x, i, rows, order, valid)
  {
    hide SlotsReports, RecordsReports, SlotFilled, ValidRowsFor, Matching, Grouped, Exactly, AllFilled, SlotRowReports;
    added, filled, valid := [], true, [];
    NoSlots(x, i, d, rows);
    assert order[..0] == [];
    for k := 0 to |order|
      invariant Exactly(added, SlotsReports(x, i, d, rows, order[..k]))
      invariant filled <==> AllFilled(x, d, rows, order[..k])
      invariant ValidRowsFor(x, i, rows, order[..k], valid)
    {
      var s := order[k];
      assert order[..k + 1] == order[..k] + [s];
      GroupFacts(rows, order, groups, k);
      SlotsMore(x, i, d, rows, order[..k], s);
      ValidRowsMore(x, i, d, rows, order[..k], s, valid);
      AllFilledMore(x, d, rows, order[..k], s);
      var more, row := FillSlot(x, i, d, rows, s, groups[s]);
      ExactlyBoth(added, SlotsReports(x, i, d, rows, order[..k]), more, SlotRowReports(x, i, d, rows, s));
      added := added + more;
      if row.Some? { valid := valid + [row.value]; } else { filled := false; }
    }
    assert order[..|order|] == order;
    AllFilledIn(x, d, rows, order);
  }

  ghost predicate AllFilled(x: Context, d: Declared, rows: seq<Binding>, slots: seq<Id>) {
    forall k :: 0 <= k < |slots| ==> SlotFilled(x, d, rows, slots[k])
  }

  lemma AllFilledMore(x: Context, d: Declared, rows: seq<Binding>, slots: seq<Id>, s: Id)
    ensures AllFilled(x, d, rows, slots + [s]) <==> AllFilled(x, d, rows, slots) && SlotFilled(x, d, rows, s)
  {
    hide SlotFilled;
    var more := slots + [s];
    assert more[|slots|] == s && forall k :: 0 <= k < |slots| ==> more[k] == slots[k];
  }

  lemma AllFilledIn(x: Context, d: Declared, rows: seq<Binding>, slots: seq<Id>)
    ensures AllFilled(x, d, rows, slots) <==> forall s :: s in slots ==> SlotFilled(x, d, rows, s)
  {
    hide SlotFilled;
  }

  lemma NoSlots(x: Context, i: Id, d: Declared, rows: seq<Binding>)
    ensures SlotsReports(x, i, d, rows, []) == {}
    ensures AllFilled(x, d, rows, [])
    ensures ValidRowsFor(x, i, rows, [], [])
    ensures Exactly([], {})
  {
  }

  lemma GroupFacts(rows: seq<Binding>, order: seq<Id>, groups: map<Id, seq<Binding>>, k: nat)
    requires Grouped(rows, BoundSlot, order, groups) && k < |order|
    ensures order[k] !in order[..k]
    ensures order[k] in groups
    ensures groups[order[k]] == At(rows, order[k]) != []
    ensures SameSlot(groups[order[k]], order[k])
    ensures forall b :: b in groups[order[k]] ==> b in rows
  {
    assert order[k] in order;
    MatchingMembers(rows, BoundSlot, order[k]);
    hide Matching;
  }

  ghost predicate SameSlot(records: seq<Binding>, s: Id) {
    forall b :: b in records ==> b.slotId == s
  }

  method FillSlot(x: Context, i: Id, d: Declared, ghost rows: seq<Binding>, s: Id, records: seq<Binding>)
    returns (added: seq<Candidate>, row: Option<(Binding, Slot)>)
    requires records == At(rows, s) != []
    requires SameSlot(records, s)
    requires forall b :: b in records ==> b in rows
    requires forall b :: b in rows ==> b.consumer == i
    ensures Exactly(added, SlotRowReports(x, i, d, rows, s))
    ensures row.Some? <==> SlotFilled(x, d, rows, s)
    ensures row.Some? ==> row.value == (At(rows, s)[0], Look(d.slots, s).value)
  {
    hide RecordsReports, RecordValid, Matching;
    added, row := [], None;
    var slot := Look(d.slots, s);
    if !slot.Unique? {
      if slot.Absent? && x.census.identityComplete { added := [UnknownSlot(i, s)]; }
      return;
    }
    Coordinates(records, i, s);
    var more, one := ValidateRecords(x, records, slot.value);
    added := more;
    if one { row := Some((records[0], slot.value)); }
  }

  lemma Coordinates(records: seq<Binding>, i: Id, s: Id)
    requires SameSlot(records, s) && forall b :: b in records ==> b.consumer == i
    ensures SameCoordinate(records)
  {
    assert forall k :: 0 <= k < |records| ==> records[k] in records;
  }

  lemma SlotIdsOf(rows: seq<Binding>, order: seq<Id>, groups: map<Id, seq<Binding>>)
    requires Grouped(rows, BoundSlot, order, groups)
    ensures forall s :: s in SlotIds(rows) <==> s in order
  {
    forall s ensures s in SlotIds(rows) <==> s in order {
      GroupedLookup(rows, BoundSlot, order, groups, s);
      if s in order {
        var b :| b in rows && BoundSlot(b) == s;
        var k :| 0 <= k < |rows| && rows[k] == b;
        assert SlotIds(rows)[k] == s;
      }
    }
  }

  lemma SameSlots(x: Context, i: Id, rows: seq<Binding>, a: seq<Id>, b: seq<Id>)
    requires forall s :: s in a <==> s in b
    ensures RepeatedFor(i, rows, a) == RepeatedFor(i, rows, b)
    ensures forall d :: SlotsReports(x, i, d, rows, a) == SlotsReports(x, i, d, rows, b)
  {
    hide Repeated, SlotRowReports;
  }

  lemma SuppliedApart(x: Context, i: Id, d: Declared, rows: seq<Binding>, slots: seq<Id>)
    requires forall b :: b in rows ==> b.consumer == i
    ensures RepeatedFor(i, rows, slots) !! SlotsReports(x, i, d, rows, slots)
  {
    forall s ensures forall r :: r in SlotRowReports(x, i, d, rows, s) ==> r.UnknownSlot? || OfRows(r) {
      SlotRowNamed(x, i, d, rows, s);
    }
    hide SlotRowReports, Matching;
  }

  ghost predicate ValidRowsOf(x: Context, i: Id, rows: seq<Binding>, valid: seq<(Binding, Slot)>) {
    && (forall v :: v in valid <==> ValidRow(x, i, rows, v))
    && (forall a, b :: 0 <= a < b < |valid| ==> valid[a].0.slotId != valid[b].0.slotId)
  }

  /**
   * The rows of one consumer: repeated coordinates, an unknown consumer, unknown slots, and each row against its
   * slot.
   */
  method ValidateSuppliedGroup(x: Context, i: Id, rows: seq<Binding>)
    returns (added: seq<Candidate>, fill: bool, valid: seq<(Binding, Slot)>)
    requires rows != [] && forall b :: b in rows ==> b.consumer == i
    ensures Exactly(added, ConsumerReports(x, i, rows))
    ensures i in x.selected ==> (fill <==> RowsFill(x, i, rows))
    ensures ValidRowsOf(x, i, rows, valid)
  {
    hide RepeatedFor, SlotsReports, SlotFilled, Matching, SlotIds;
    var order, groups := GroupBy(rows, BoundSlot);
    SlotIdsOf(rows, order, groups);
    SameSlots(x, i, rows, order, SlotIds(rows));
    var repeated, unique := RepeatedRecords(i, rows, order, groups);
    added, fill, valid := repeated, false, [];
    var consumer := Look(x.census.implementations, i);
    if !consumer.Unique? {
      if consumer.Absent? && x.census.identityComplete {
        NotRepeated(i, rows, order);
        ExactlyOne(added, RepeatedFor(i, rows, order), UnknownConsumer(i));
        added := added + [UnknownConsumer(i)];
      } else {
        assert RepeatedFor(i, rows, order) + {} == RepeatedFor(i, rows, order);
      }
      return;
    }
    if i !in x.selected {
      assert RepeatedFor(i, rows, order) + {} == RepeatedFor(i, rows, order);
      return;
    }
    var more, filled, found := FillSlots(x, i, consumer.value, rows, order, groups);
    SuppliedApart(x, i, consumer.value, rows, order);
    ExactlyBoth(repeated, RepeatedFor(i, rows, order), more, SlotsReports(x, i, consumer.value, rows, order));
    ValidRowsIn(x, i, rows, order, found);
    added, fill, valid := repeated + more, filled, found;
  }

  lemma NotRepeated(i: Id, rows: seq<Binding>, slots: seq<Id>)
    ensures UnknownConsumer(i) !in RepeatedFor(i, rows, slots)
  {
  }

  lemma ValidRowsIn(x: Context, i: Id, rows: seq<Binding>, order: seq<Id>, valid: seq<(Binding, Slot)>)
    requires ValidRowsFor(x, i, rows, order, valid) && forall s :: s in SlotIds(rows) <==> s in order
    ensures ValidRowsOf(x, i, rows, valid)
  {
    hide SlotFilled;
    forall v ensures v in valid <==> ValidRow(x, i, rows, v) {
      if ValidRow(x, i, rows, v) { var k :| 0 <= k < |rows| && rows[k] == v.0; assert SlotIds(rows)[k] == v.0.slotId; }
    }
  }

  // ---------- missing rows ----------

  function UniqueSlotIds(d: Declared): set<Id> {
    set s | s in d.slots && d.slots[s].Unique?
  }

  ghost function MissingFor(x: Context, p: Profile, i: Id): set<Candidate> {
    match Look(x.census.implementations, i)
    case Unique(d) => set s | s in UniqueSlotIds(d) && At(RowsOfConsumer(p, i), s) == [] :: MissingBinding(i, s)
    case _ => {}
  }

  ghost function RowsOfConsumer(p: Profile, i: Id): seq<Binding> {
    Matching(p.bindings, ConsumerOf, i)
  }

  /** Every slot is declared once and has a row. */
  ghost predicate SlotsSupplied(x: Context, p: Profile, i: Id) {
    && Look(x.census.implementations, i).Unique?
    && var d := Look(x.census.implementations, i).value;
       |UniqueSlotIds(d)| == d.slotCount && forall s :: s in UniqueSlotIds(d) ==> At(RowsOfConsumer(p, i), s) != []
  }

  method ValidateMissing(x: Context, p: Profile, i: Id, supplied: set<Id>)
    returns (added: seq<Candidate>, complete: bool)
    requires forall s :: s in supplied <==> At(RowsOfConsumer(p, i), s) != []
    ensures Exactly(added, MissingFor(x, p, i))
    ensures complete <==> SlotsSupplied(x, p, i)
  {
    hide At, RowsOfConsumer;
    added, complete := [], false;
    var consumer := Look(x.census.implementations, i);
    if !consumer.Unique? { return; }
    var slots := UniqueSlotIds(consumer.value);
    complete := |slots| == consumer.value.slotCount;
    var rest := slots;
    while rest != {}
      invariant rest <= slots
      invariant Exactly(added, set s | s in slots - rest && s !in supplied :: MissingBinding(i, s))
      invariant complete <==> |slots| == consumer.value.slotCount && forall s :: s in slots - rest ==> s in supplied
    {
      var s :| s in rest;
      ghost var before := set s | s in slots - rest && s !in supplied :: MissingBinding(i, s);
      ghost var after := set q | q in slots - (rest - {s}) && q !in supplied :: MissingBinding(i, q);
      assert slots - (rest - {s}) == slots - rest + {s};
      if s !in supplied {
        ExactlyOne(added, before, MissingBinding(i, s));
        added, complete := added + [MissingBinding(i, s)], false;
        assert after == before + {MissingBinding(i, s)};
      } else {
        assert after == before;
      }
      rest := rest - {s};
    }
    assert slots - {} == slots;
  }

  // ---------- all rows ----------

  /** Valid rows come in the order of consumer, then slot. */
  predicate RowLe(a: (Binding, Slot), b: (Binding, Slot)) {
    TextLess(a.0.consumer, b.0.consumer) || (a.0.consumer == b.0.consumer && TextLe(a.0.slotId, b.0.slotId))
  }

  lemma RowOrder()
    ensures TotalPreorder(RowLe)
    ensures forall a, b :: RowLe(a, b) && RowLe(b, a) ==> a.0.consumer == b.0.consumer && a.0.slotId == b.0.slotId
  {
    TextOrder();
    forall a, b ensures RowLe(a, b) || RowLe(b, a) { TextTrichotomy(a.0.consumer, b.0.consumer); }
    forall a, b, c | RowLe(a, b) && RowLe(b, c) ensures RowLe(a, c) {
      if TextLess(a.0.consumer, b.0.consumer) && TextLess(b.0.consumer, c.0.consumer) {
        TextTransitive(a.0.consumer, b.0.consumer, c.0.consumer);
      }
    }
    forall a, b | RowLe(a, b) && RowLe(b, a) ensures a.0.consumer == b.0.consumer && a.0.slotId == b.0.slotId {
      TextTrichotomy(a.0.consumer, b.0.consumer);
    }
  }

  ghost function SuppliedFor(x: Context, p: Profile, consumers: seq<Id>): set<Candidate> {
    set i, r | i in consumers && r in ConsumerReports(x, i, RowsOfConsumer(p, i)) :: r
  }

  ghost function SuppliedReports(x: Context, p: Profile): set<Candidate> {
    SuppliedFor(x, p, IdsOf(p.bindings, ConsumerOf))
  }

  ghost function MissingReports(x: Context, p: Profile, ids: seq<Id>): set<Candidate> {
    set i, r | i in ids && r in MissingFor(x, p, i) :: r
  }

  ghost function BindingReports(x: Context, p: Profile, ids: seq<Id>): set<Candidate> {
    SuppliedReports(x, p) + MissingReports(x, p, ids)
  }

  /** Every slot of the consumer has exactly one row, and every row is for a slot and satisfies it. */
  ghost predicate FrontierComplete(x: Context, p: Profile, i: Id) {
    && i in x.selected && SlotsSupplied(x, p, i)
    && (RowsOfConsumer(p, i) != [] ==> RowsFill(x, i, RowsOfConsumer(p, i)))
  }

  ghost predicate IsValidRow(x: Context, p: Profile, v: (Binding, Slot)) {
    ValidRow(x, v.0.consumer, RowsOfConsumer(p, v.0.consumer), v)
  }

  ghost predicate SameRowCoordinate(a: (Binding, Slot), b: (Binding, Slot)) {
    a.0.consumer == b.0.consumer && a.0.slotId == b.0.slotId
  }

  ghost predicate ValidSoFar(x: Context, p: Profile, consumers: seq<Id>, valid: seq<(Binding, Slot)>) {
    && (forall v :: v in valid <==> v.0.consumer in consumers && IsValidRow(x, p, v))
    && (forall a, b :: 0 <= a < b < |valid| ==> !SameRowCoordinate(valid[a], valid[b]))
  }

  datatype Bindings = Bindings(valid: seq<(Binding, Slot)>, complete: set<Id>)

  ghost predicate BindingsOf(x: Context, p: Profile, b: Bindings) {
    && (forall v :: v in b.valid <==> IsValidRow(x, p, v))
    && SortedBy(RowLe, b.valid)
    && (forall i, j :: 0 <= i < j < |b.valid| ==> !SameRowCoordinate(b.valid[i], b.valid[j]))
    && (forall i :: i in b.complete <==> FrontierComplete(x, p, i))
  }

  lemma ConsumerNamed(x: Context, i: Id, rows: seq<Binding>)
    requires forall b :: b in rows ==> b.consumer == i
    ensures forall r ::
      r in ConsumerReports(x, i, rows) ==>
        (r.DuplicateRecord? || r.UnknownConsumer? || r.UnknownSlot? || OfRows(r)) && r.consumer == i
  {
    if Look(x.census.implementations, i).Unique? {
      var d := Look(x.census.implementations, i).value;
      forall s
        ensures forall r :: r in SlotRowReports(x, i, d, rows, s) ==> (r.UnknownSlot? || OfRows(r)) && r.consumer == i
      {
        SlotRowNamed(x, i, d, rows, s);
      }
    }
    hide SlotRowReports, Matching, SlotIds;
  }

  lemma SuppliedMore(x: Context, p: Profile, cs: seq<Id>, i: Id)
    requires i !in cs
    ensures SuppliedFor(x, p, cs + [i]) == SuppliedFor(x, p, cs) + ConsumerReports(x, i, RowsOfConsumer(p, i))
    ensures SuppliedFor(x, p, cs) !! ConsumerReports(x, i, RowsOfConsumer(p, i))
    ensures SuppliedFor(x, p, []) == {}
  {
    forall q
      ensures forall r ::
        r in ConsumerReports(x, q, RowsOfConsumer(p, q)) ==>
          (r.DuplicateRecord? || r.UnknownConsumer? || r.UnknownSlot? || OfRows(r)) && r.consumer == q {
      MatchingMembers(p.bindings, ConsumerOf, q);
      ConsumerNamed(x, q, RowsOfConsumer(p, q));
    }
    hide ConsumerReports, RowsOfConsumer, OfRows;
    forall q ensures q in cs + [i] <==> q in cs || q == i {}
  }

  lemma ValidMore(x: Context, p: Profile, cs: seq<Id>, i: Id, valid: seq<(Binding, Slot)>, more: seq<(Binding, Slot)>)
    requires i !in cs && ValidSoFar(x, p, cs, valid) && ValidRowsOf(x, i, RowsOfConsumer(p, i), more)
    ensures ValidSoFar(x, p, cs + [i], valid + more)
  {
    MatchingMembers(p.bindings, ConsumerOf, i);
    hide SlotFilled, Matching;
    forall v | v in more ensures v.0.consumer == i { assert v.0 in RowsOfConsumer(p, i); }
    hide ValidRow;
    forall q ensures q in cs + [i] <==> q in cs || q == i {}
    var all := valid + more;
    forall a, b | 0 <= a < b < |all| ensures !SameRowCoordinate(all[a], all[b]) {
      if a < |valid| <= b { assert valid[a] in valid && more[b - |valid|] in more; }
    }
  }

  /** Each consumer's rows in turn; `broken` collects the selected consumers whose rows do not all fill their slots. */
  method ValidateSupplied(x: Context, p: Profile, order: seq<Id>, groups: map<Id, seq<Binding>>)
    returns (added: seq<Candidate>, broken: set<Id>, valid: seq<(Binding, Slot)>)
    requires Grouped(p.bindings, ConsumerOf, order, groups)
    ensures Exactly(added, SuppliedFor(x, p, order)) && ValidSoFar(x, p, order, valid)
    ensures forall i :: i in broken <==> i in order && i in x.selected && !RowsFill(x, i, RowsOfConsumer(p, i))
  {
    hide SuppliedFor, ValidSoFar, RowsFill, Matching, ConsumerReports, ValidRowsOf, Exactly, Grouped;
    added, broken, valid := [], {}, [];
    NoConsumers(x, p);
    assert order[..0] == [];
    for k := 0 to |order|
      invariant Exactly(added, SuppliedFor(x, p, order[..k])) && ValidSoFar(x, p, order[..k], valid)
      invariant forall i :: i in broken <==> i in order[..k] && i in x.selected && !RowsFill(x, i, RowsOfConsumer(p, i))
    {
      var i := order[k];
      assert order[..k + 1] == order[..k] + [i];
      ConsumerFacts(p, order, groups, k);
      SuppliedMore(x, p, order[..k], i);
      var more, fill, found := ValidateSuppliedGroup(x, i, groups[i]);
      ExactlyBoth(added, SuppliedFor(x, p, order[..k]), more, ConsumerReports(x, i, groups[i]));
      ValidMore(x, p, order[..k], i, valid, found);
      added, valid := added + more, valid + found;
      if i in x.selected && !fill { broken := broken + {i}; }
    }
    assert order[..|order|] == order;
  }

  lemma NoConsumers(x: Context, p: Profile)
    ensures Exactly([], SuppliedFor(x, p, [])) && ValidSoFar(x, p, [], [])
  {
  }

  lemma ConsumerFacts(p: Profile, order: seq<Id>, groups: map<Id, seq<Binding>>, k: nat)
    requires Grouped(p.bindings, ConsumerOf, order, groups) && k < |order|
    ensures order[k] !in order[..k] && order[k] in groups && groups[order[k]] == RowsOfConsumer(p, order[k]) != []
    ensures forall b :: b in groups[order[k]] ==> b.consumer == order[k]
  {
    assert order[k] in order;
    MatchingMembers(p.bindings, ConsumerOf, order[k]);
    hide Matching;
  }

  lemma MissingMore(x: Context, p: Profile, cs: seq<Id>, i: Id)
    requires i !in cs
    ensures MissingReports(x, p, cs + [i]) == MissingReports(x, p, cs) + MissingFor(x, p, i)
    ensures MissingReports(x, p, cs) !! MissingFor(x, p, i)
    ensures MissingReports(x, p, []) == {}
    ensures forall r :: r in MissingReports(x, p, cs) ==> r.MissingBinding?
  {
    hide At, RowsOfConsumer, UniqueSlotIds;
    forall q ensures forall r :: r in MissingFor(x, p, q) ==> r.MissingBinding? && r.consumer == q {}
    hide MissingFor;
    forall q ensures q in cs + [i] <==> q in cs || q == i {}
  }

  /** Every selected consumer's slots that no row supplies; `complete` keeps those with nothing missing. */
  method ValidateMissingBindings(x: Context, p: Profile, ids: seq<Id>, groups: map<Id, seq<Binding>>, broken: set<Id>)
    returns (added: seq<Candidate>, complete: set<Id>)
    requires Distinct(ids)
    requires forall i :: i in groups ==> groups[i] == RowsOfConsumer(p, i)
    requires forall i :: i !in groups ==> RowsOfConsumer(p, i) == []
    ensures Exactly(added, MissingReports(x, p, ids))
    ensures forall i :: i in complete <==> i in ids && i !in broken && SlotsSupplied(x, p, i)
  {
    hide MissingReports, SlotsSupplied, Matching, MissingFor, Exactly, RowsOfConsumer;
    added, complete := [], {};
    NoMissing(x, p);
    assert ids[..0] == [];
    for k := 0 to |ids|
      invariant Exactly(added, MissingReports(x, p, ids[..k]))
      invariant forall i :: i in complete <==> i in ids[..k] && i !in broken && SlotsSupplied(x, p, i)
    {
      var i := ids[k];
      assert ids[..k + 1] == ids[..k] + [i] && i !in ids[..k];
      MissingMore(x, p, ids[..k], i);
      var rows := if i in groups then groups[i] else [];
      var supplied := set b | b in rows :: b.slotId;
      SuppliedSlots(p, i, rows, supplied);
      var more, one := ValidateMissing(x, p, i, supplied);
      ExactlyBoth(added, MissingReports(x, p, ids[..k]), more, MissingFor(x, p, i));
      added := added + more;
      if one && i !in broken { complete := complete + {i}; }
    }
    assert ids[..|ids|] == ids;
  }

  lemma NoMissing(x: Context, p: Profile)
    ensures Exactly([], MissingReports(x, p, []))
  {
  }

  lemma SuppliedSlots(p: Profile, i: Id, rows: seq<Binding>, supplied: set<Id>)
    requires rows == RowsOfConsumer(p, i) && supplied == set b | b in rows :: b.slotId
    ensures forall s :: s in supplied <==> At(rows, s) != []
  {
    forall s ensures s in supplied <==> At(rows, s) != [] {
      MatchingMembers(rows, BoundSlot, s);
      if |At(rows, s)| > 0 { var b := At(rows, s)[0]; MatchingMember(rows, BoundSlot, s, b); }
    }
  }

  method ValidateSelectedBindings(x: Context, p: Profile, ids: seq<Id>) returns (r: Bindings, added: seq<Candidate>)
    requires Distinct(ids) && forall i :: i in ids <==> i in x.selected
    ensures BindingsOf(x, p, r)
    ensures Exactly(added, BindingReports(x, p, ids))
  {
    hide SuppliedReports, MissingReports, SuppliedFor, ValidSoFar, Grouped, RowsOfConsumer, SlotsSupplied, RowsFill,
         Exactly, BindingsOf;
    var order, groups := GroupBy(p.bindings, ConsumerOf);
    ConsumersAll(x, p, order, groups);
    var first, broken, valid := ValidateSupplied(x, p, order, groups);
    var second, complete := ValidateMissingBindings(x, p, ids, groups, broken);
    StagesApart(x, p, ids);
    ExactlyBoth(first, SuppliedReports(x, p), second, MissingReports(x, p, ids));
    added := first + second;
    r := Bindings(Sort(RowLe, valid), complete);
    SortedValid(x, p, order, groups, valid, ids, broken, complete);
  }

  lemma ConsumersAll(x: Context, p: Profile, order: seq<Id>, groups: map<Id, seq<Binding>>)
    requires Grouped(p.bindings, ConsumerOf, order, groups)
    ensures SuppliedFor(x, p, order) == SuppliedReports(x, p)
    ensures forall i :: i in groups ==> groups[i] == RowsOfConsumer(p, i)
    ensures forall i :: i !in groups ==> RowsOfConsumer(p, i) == []
  {
    hide ConsumerReports, Matching;
    forall i ensures i in IdsOf(p.bindings, ConsumerOf) <==> i in order {
      GroupedLookup(p.bindings, ConsumerOf, order, groups, i);
      if i in order {
        var b :| b in p.bindings && ConsumerOf(b) == i;
        var k :| 0 <= k < |p.bindings| && p.bindings[k] == b;
        assert IdsOf(p.bindings, ConsumerOf)[k] == i;
      }
    }
    forall i | i !in groups ensures RowsOfConsumer(p, i) == [] {
      GroupedLookup(p.bindings, ConsumerOf, order, groups, i);
    }
  }

  lemma StagesApart(x: Context, p: Profile, ids: seq<Id>)
    ensures SuppliedReports(x, p) !! MissingReports(x, p, ids)
  {
    MissingMoreKinds(x, p, ids);
    SuppliedKinds(x, p);
    hide SuppliedReports, MissingReports;
  }

  lemma MissingMoreKinds(x: Context, p: Profile, ids: seq<Id>)
    ensures forall r :: r in MissingReports(x, p, ids) ==> r.MissingBinding?
  {
    hide At, RowsOfConsumer, UniqueSlotIds;
  }

  lemma SuppliedKinds(x: Context, p: Profile)
    ensures forall r ::
      r in SuppliedReports(x, p) ==> r.DuplicateRecord? || r.UnknownConsumer? || r.UnknownSlot? || OfRows(r)
  {
    forall q
      ensures forall r ::
        r in ConsumerReports(x, q, RowsOfConsumer(p, q)) ==>
          r.DuplicateRecord? || r.UnknownConsumer? || r.UnknownSlot? || OfRows(r) {
      MatchingMembers(p.bindings, ConsumerOf, q);
      ConsumerNamed(x, q, RowsOfConsumer(p, q));
    }
    hide ConsumerReports, RowsOfConsumer, OfRows;
  }

  /** Sorting the valid rows loses none. */
  lemma SortedRows(x: Context, p: Profile, order: seq<Id>, groups: map<Id, seq<Binding>>, valid: seq<(Binding, Slot)>)
    requires Grouped(p.bindings, ConsumerOf, order, groups) && ValidSoFar(x, p, order, valid)
    ensures forall v :: v in Sort(RowLe, valid) <==> IsValidRow(x, p, v)
  {
    hide Grouped, Sort, SortedBy, TotalPreorder, RowLe, IsValidRow, RowsOfConsumer, SameRowCoordinate;
    RowOrder();
    SortCorrect(RowLe, valid);
    MembersOfMultiset(Sort(RowLe, valid), valid);
    forall v | IsValidRow(x, p, v) ensures v.0.consumer in order { ValidRowListed(x, p, order, groups, v); }
  }

  /** Sorting the valid rows keeps their coordinates apart. */
  lemma SortedApart(x: Context, p: Profile, order: seq<Id>, valid: seq<(Binding, Slot)>)
    requires ValidSoFar(x, p, order, valid)
    ensures var s := Sort(RowLe, valid);
      SortedBy(RowLe, s) && forall i, j :: 0 <= i < j < |s| ==> !SameRowCoordinate(s[i], s[j])
  {
    hide Sort, SortedBy, TotalPreorder, RowLe, IsValidRow, SameRowCoordinate;
    RowOrder();
    SortCorrect(RowLe, valid);
    CoordinatesPermuted(Sort(RowLe, valid), valid);
  }

  lemma FrontierIs(x: Context, p: Profile, order: seq<Id>, groups: map<Id, seq<Binding>>, i: Id)
    requires Grouped(p.bindings, ConsumerOf, order, groups)
    ensures FrontierComplete(x, p, i) <==>
      i in x.selected && SlotsSupplied(x, p, i) && (i in order ==> RowsFill(x, i, RowsOfConsumer(p, i)))
  {
    hide Grouped, SlotsSupplied, RowsFill, RowsOfConsumer;
    RowsNonempty(p, order, groups, i);
  }

  /** The complete frontiers are the selected consumers that are supplied and not broken. */
  lemma FrontiersComplete(x: Context, p: Profile, order: seq<Id>, groups: map<Id, seq<Binding>>, ids: seq<Id>,
                          broken: set<Id>, complete: set<Id>)
    requires Grouped(p.bindings, ConsumerOf, order, groups)
    requires forall i :: i in broken <==> i in order && i in x.selected && !RowsFill(x, i, RowsOfConsumer(p, i))
    requires forall i :: i in complete <==> i in ids && i !in broken && SlotsSupplied(x, p, i)
    requires forall i :: i in ids <==> i in x.selected
    ensures forall i :: i in complete <==> FrontierComplete(x, p, i)
  {
    hide Grouped, SlotsSupplied, RowsFill, RowsOfConsumer, FrontierComplete;
    forall i ensures i in complete <==> FrontierComplete(x, p, i) { FrontierIs(x, p, order, groups, i); }
  }

  lemma BindingsAre(x: Context, p: Profile, b: Bindings)
    requires forall v :: v in b.valid <==> IsValidRow(x, p, v)
    requires SortedBy(RowLe, b.valid)
      && forall i, j :: 0 <= i < j < |b.valid| ==> !SameRowCoordinate(b.valid[i], b.valid[j])
    requires forall i :: i in b.complete <==> FrontierComplete(x, p, i)
    ensures BindingsOf(x, p, b)
  {
    hide IsValidRow, SortedBy, RowLe, SameRowCoordinate, FrontierComplete;
  }

  lemma SortedValid(x: Context, p: Profile, order: seq<Id>, groups: map<Id, seq<Binding>>,
                    valid: seq<(Binding, Slot)>, ids: seq<Id>, broken: set<Id>, complete: set<Id>)
    requires Grouped(p.bindings, ConsumerOf, order, groups) && ValidSoFar(x, p, order, valid)
    requires forall i :: i in broken <==> i in order && i in x.selected && !RowsFill(x, i, RowsOfConsumer(p, i))
    requires forall i :: i in complete <==> i in ids && i !in broken && SlotsSupplied(x, p, i)
    requires forall i :: i in ids <==> i in x.selected
    ensures BindingsOf(x, p, Bindings(Sort(RowLe, valid), complete))
  {
    hide *;
    SortedRows(x, p, order, groups, valid);
    SortedApart(x, p, order, valid);
    FrontiersComplete(x, p, order, groups, ids, broken, complete);
    BindingsAre(x, p, Bindings(Sort(RowLe, valid), complete));
  }

  lemma RowsNonempty(p: Profile, order: seq<Id>, groups: map<Id, seq<Binding>>, i: Id)
    requires Grouped(p.bindings, ConsumerOf, order, groups)
    ensures i in order <==> RowsOfConsumer(p, i) != []
  {
    GroupedLookup(p.bindings, ConsumerOf, order, groups, i);
    hide Matching;
  }

  lemma ValidRowListed(x: Context, p: Profile, order: seq<Id>, groups: map<Id, seq<Binding>>, v: (Binding, Slot))
    requires Grouped(p.bindings, ConsumerOf, order, groups) && IsValidRow(x, p, v)
    ensures v.0.consumer in order
  {
    assert v.0 in RowsOfConsumer(p, v.0.consumer);
    RowsNonempty(p, order, groups, v.0.consumer);
  }

  lemma CoordinatesPermuted(a: seq<(Binding, Slot)>, b: seq<(Binding, Slot)>)
    requires multiset(a) == multiset(b) && forall i, j :: 0 <= i < j < |b| ==> !SameRowCoordinate(b[i], b[j])
    ensures forall i, j :: 0 <= i < j < |a| ==> !SameRowCoordinate(a[i], a[j])
  {
    MembersOfMultiset(a, b);
    assert Distinct(b) by {
      forall i, j | 0 <= i < j < |b| ensures b[i] != b[j] { assert !SameRowCoordinate(b[i], b[j]); }
    }
    DistinctPermutation(b, a);
    forall i, j | 0 <= i < j < |a| ensures !SameRowCoordinate(a[i], a[j]) {
      assert a[i] in b && a[j] in b;
      var m, n :| 0 <= m < |b| && 0 <= n < |b| && b[m] == a[i] && b[n] == a[j];
      assert m < n ==> !SameRowCoordinate(b[m], b[n]);
      assert n < m ==> !SameRowCoordinate(b[n], b[m]);
    }
  }
}
