/** The total order in which diagnostics are reported (order.ts). */
module DiagnosticOrder {
  import opened Sequences
  import opened Text
  import opened Paths

  datatype Phase = Decode | Schema | Declaration | Profile | Binding | Graph | Output

  datatype Code =
    | InvalidByteCarrier | InvalidJson | DuplicateKey | LimitExceeded | UnsupportedVersion | UnknownField | InvalidValue
    | NonPlainValue | IdentityInvalid | DuplicateImplementation | DuplicateCapability | DuplicateSlot | DuplicateRoot
    | UnknownRoot | DuplicateSelection | UnknownModule | UnknownImplementation | ImplementationMismatch
    | MissingSelection | UnreachableSelection | DuplicateRecord | DuplicateProvider | BindingMissing | UnknownConsumer
    | UnknownSlot | UnknownProvider | ProviderNotSelected | CardinalityMismatch | CapabilityMissing
    | CompatibilityMismatch | GraphCycle | Truncated

  function PhaseRank(p: Phase): int {
    match p
    case Decode => 0
    case Schema => 1
    case Declaration => 2
    case Profile => 3
    case Binding => 4
    case Graph => 5
    case Output => 6
  }

  function CodeRank(c: Code): int {
    match c
    case InvalidByteCarrier => 0 case InvalidJson => 1 case DuplicateKey => 2 case LimitExceeded => 3
    case UnsupportedVersion => 4 case UnknownField => 5 case InvalidValue => 6 case NonPlainValue => 7
    case IdentityInvalid => 8 case DuplicateImplementation => 9 case DuplicateCapability => 10 case DuplicateSlot => 11
    case DuplicateRoot => 12 case UnknownRoot => 13 case DuplicateSelection => 14 case UnknownModule => 15
    case UnknownImplementation => 16 case ImplementationMismatch => 17 case MissingSelection => 18
    case UnreachableSelection => 19 case DuplicateRecord => 20 case DuplicateProvider => 21 case BindingMissing => 22
    case UnknownConsumer => 23 case UnknownSlot => 24 case UnknownProvider => 25 case ProviderNotSelected => 26
    case CardinalityMismatch => 27 case CapabilityMissing => 28 case CompatibilityMismatch => 29 case GraphCycle => 30
    case Truncated => 32
  }

  /** The four optional coordinate fields, in comparison order: module, implementation, slot, provider. */
  datatype Coordinate = Coordinate(moduleId: Option<string>, implementationId: Option<string>, slotId: Option<string>,
    providerImplementationId: Option<string>)

  datatype Details =
    | Reason(reason: string)
    | Limit(limitName: string, limit: nat, actual: nat)
    | Cardinality(expectedCardinality: string, actualCardinality: nat)
    | Compatibility(expectedToken: string, actualToken: string)
    | Component(component: seq<string>)
    | Omitted(omitted: nat)

  datatype Record = Record(phase: Phase, code: Code, coordinate: Coordinate, path: seq<Segment>, details: Details)

  /** Closed, normalized diagnostics: exactly cycles carry a component. */
  type Diagnostic = d: Record | d.code == GraphCycle <==> d.details.Component?
    witness Record(Output, Truncated, Coordinate(None, None, None, None), [], Omitted(0))

  /** The canonical bytes of the details; the encoding itself is a parameter. */
  type Canonicalize = Details -> seq<int>

  // ---------- orderings ----------

  /** The sign convention of a comparator: zero exactly on equals, antisymmetric, transitive. */
  ghost predicate Ordering<T(!new)>(cmp: (T, T) -> int) {
    && (forall x, y :: cmp(x, y) == 0 <==> x == y)
    && (forall x, y :: cmp(x, y) < 0 <==> cmp(y, x) > 0)
    && (forall x, y, z :: cmp(x, y) < 0 && cmp(y, z) < 0 ==> cmp(x, z) < 0)
  }

  function Lexical(a: string, b: string): int {
    if TextLess(a, b) then -1 else if TextLess(b, a) then 1 else 0
  }

  function CompareInt(a: int, b: int): int { a - b }

  function CompareOptional(a: Option<string>, b: Option<string>): int {
    match (a, b)
    case (None, None) => 0
    case (None, Some(_)) => -1
    case (Some(_), None) => 1
    case (Some(x), Some(y)) => Lexical(x, y)
  }

  function CompareSegment(a: Segment, b: Segment): int {
    match (a, b)
    case (Field(x), Field(y)) => Lexical(x, y)
    case (Index(x), Index(y)) => if x < y then -1 else if x > y then 1 else 0
    case (Field(_), Index(_)) => -1
    case (Index(_), Field(_)) => 1
  }

  /** Element by element, the shorter prefix first. */
  function CompareLists<T>(cmp: (T, T) -> int, a: seq<T>, b: seq<T>): int {
    if a == [] || b == [] then |a| - |b|
    else if cmp(a[0], b[0]) != 0 then cmp(a[0], b[0])
    else CompareLists(cmp, a[1..], b[1..])
  }

  lemma LexicalOrdering()
    ensures Ordering(Lexical)
  {
    forall x, y ensures (Lexical(x, y) == 0 <==> x == y) && (Lexical(x, y) < 0 <==> Lexical(y, x) > 0) {
      TextTrichotomy(x, y);
    }
    forall x, y, z | Lexical(x, y) < 0 && Lexical(y, z) < 0 ensures Lexical(x, z) < 0 { TextTransitive(x, y, z); }
  }

  lemma OptionalOrdering()
    ensures Ordering(CompareOptional)
  {
    LexicalOrdering();
  }

  lemma SegmentOrdering()
    ensures Ordering(CompareSegment)
  {
    LexicalOrdering();
  }

  lemma {:induction false} ListZero<T(!new)>(cmp: (T, T) -> int, a: seq<T>, b: seq<T>)
    requires Ordering(cmp)
    ensures CompareLists(cmp, a, b) == 0 <==> a == b
    ensures CompareLists(cmp, a, b) < 0 <==> CompareLists(cmp, b, a) > 0
  {
    if a != [] && b != [] {
      ListZero(cmp, a[1..], b[1..]);
      assert a == [a[0]] + a[1..] && b == [b[0]] + b[1..];
    }
  }

  lemma {:induction false} ListTransitive<T(!new)>(cmp: (T, T) -> int, a: seq<T>, b: seq<T>, c: seq<T>)
    requires Ordering(cmp) && CompareLists(cmp, a, b) < 0 && CompareLists(cmp, b, c) < 0
    ensures CompareLists(cmp, a, c) < 0
  {
    if a != [] && b != [] && c != [] && cmp(a[0], b[0]) == 0 && cmp(b[0], c[0]) == 0 {
      ListTransitive(cmp, a[1..], b[1..], c[1..]);
    }
  }

  /** One level of a lexicographic comparison of three values at once. */
  lemma ListLevel<T(!new)>(cmp: (T, T) -> int, a: seq<T>, b: seq<T>, c: seq<T>)
    requires Ordering(cmp)
    ensures CompareLists(cmp, a, b) == 0 <==> a == b
    ensures CompareLists(cmp, b, c) == 0 <==> b == c
    ensures CompareLists(cmp, a, b) < 0 <==> CompareLists(cmp, b, a) > 0
    ensures CompareLists(cmp, a, b) > 0 <==> CompareLists(cmp, b, a) < 0
    ensures CompareLists(cmp, a, b) < 0 && CompareLists(cmp, b, c) < 0 ==> CompareLists(cmp, a, c) < 0
  {
    ListZero(cmp, a, b);
    ListZero(cmp, b, a);
    ListZero(cmp, b, c);
    if CompareLists(cmp, a, b) < 0 && CompareLists(cmp, b, c) < 0 { ListTransitive(cmp, a, b, c); }
  }

  function Then(first: int, second: int): int {
    if first != 0 then first else second
  }

  // ---------- diagnostics ----------

  /** What the comparator looks at; a cycle is compared by its component, everything else by canonical bytes. */
  datatype Tail = Cycle(component: seq<string>) | Bytes(bytes: seq<int>)

  datatype Key = Key(phase: int, code: int, fields: seq<Option<string>>, path: seq<Segment>, tail: Tail)

  function Fields(c: Coordinate): seq<Option<string>> {
    [c.moduleId, c.implementationId, c.slotId, c.providerImplementationId]
  }

  function TailOf(d: Diagnostic, canonicalize: Canonicalize): Tail {
    if d.details.Component? then Cycle(d.details.component) else Bytes(canonicalize(d.details))
  }

  function KeyOf(d: Diagnostic, canonicalize: Canonicalize): Key {
    Key(PhaseRank(d.phase), CodeRank(d.code), Fields(d.coordinate), d.path, TailOf(d, canonicalize))
  }

  /** Tails of different kinds are never compared: their codes differ. */
  function CompareTails(a: Tail, b: Tail): int {
    match (a, b)
    case (Cycle(x), Cycle(y)) => CompareLists(Lexical, x, y)
    case (Bytes(x), Bytes(y)) => CompareLists(CompareInt, x, y)
    case (Cycle(_), Bytes(_)) => -1
    case (Bytes(_), Cycle(_)) => 1
  }

  function CompareKeys(a: Key, b: Key): int {
    Then(a.phase - b.phase, Then(a.code - b.code, Then(CompareLists(CompareOptional, a.fields, b.fields),
      Then(CompareLists(CompareSegment, a.path, b.path), CompareTails(a.tail, b.tail)))))
  }

  function Compare(a: Diagnostic, b: Diagnostic, canonicalize: Canonicalize): int {
    CompareKeys(KeyOf(a, canonicalize), KeyOf(b, canonicalize))
  }

  ghost predicate Injective(canonicalize: Canonicalize) {
    forall x, y :: canonicalize(x) == canonicalize(y) ==> x == y
  }

  lemma TailLevel(a: Tail, b: Tail, c: Tail)
    ensures CompareTails(a, b) == 0 <==> a == b
    ensures CompareTails(b, c) == 0 <==> b == c
    ensures CompareTails(a, b) < 0 <==> CompareTails(b, a) > 0
    ensures CompareTails(a, b) > 0 <==> CompareTails(b, a) < 0
    ensures CompareTails(a, b) < 0 && CompareTails(b, c) < 0 ==> CompareTails(a, c) < 0
  {
    LexicalOrdering();
    if a.Cycle? && b.Cycle? { ListLevel(Lexical, a.component, b.component, b.component); }
    if a.Bytes? && b.Bytes? { ListLevel(CompareInt, a.bytes, b.bytes, b.bytes); }
    if b.Cycle? && c.Cycle? { ListZero(Lexical, b.component, c.component); }
    if b.Bytes? && c.Bytes? { ListZero(CompareInt, b.bytes, c.bytes); }
    if a.Cycle? && b.Cycle? && c.Cycle? { ListLevel(Lexical, a.component, b.component, c.component); }
    if a.Bytes? && b.Bytes? && c.Bytes? { ListLevel(CompareInt, a.bytes, b.bytes, c.bytes); }
  }

  lemma KeyLevel(a: Key, b: Key, c: Key)
    ensures CompareKeys(a, b) == 0 <==> a == b
    ensures CompareKeys(a, b) < 0 <==> CompareKeys(b, a) > 0
    ensures CompareKeys(a, b) < 0 && CompareKeys(b, c) < 0 ==> CompareKeys(a, c) < 0
  {
    OptionalOrdering();
    SegmentOrdering();
    ListLevel(CompareOptional, a.fields, b.fields, c.fields);
    ListLevel(CompareSegment, a.path, b.path, c.path);
    TailLevel(a.tail, b.tail, c.tail);
    hide CompareLists, CompareTails;
  }

  /** The comparator is a total order on keys, whatever the canonical encoding is. */
  lemma KeyOrdering()
    ensures Ordering(CompareKeys)
  {
    forall a: Key, b: Key
      ensures (CompareKeys(a, b) == 0 <==> a == b) && (CompareKeys(a, b) < 0 <==> CompareKeys(b, a) > 0) {
      KeyLevel(a, b, b);
    }
    forall a: Key, b: Key, c: Key | CompareKeys(a, b) < 0 && CompareKeys(b, c) < 0 ensures CompareKeys(a, c) < 0 {
      KeyLevel(a, b, c);
    }
  }

  lemma RanksInjective()
    ensures forall p, q :: PhaseRank(p) == PhaseRank(q) ==> p == q
    ensures forall c, d :: CodeRank(c) == CodeRank(d) ==> c == d
  {
  }

  /** With an injective encoding two diagnostics compare equal only when they are the same. */
  lemma CompareOrdering(canonicalize: Canonicalize)
    ensures forall a: Diagnostic, b: Diagnostic :: Compare(a, b, canonicalize) < 0 <==> Compare(b, a, canonicalize) > 0
    ensures forall a: Diagnostic, b: Diagnostic, c: Diagnostic ::
              Compare(a, b, canonicalize) < 0 && Compare(b, c, canonicalize) < 0 ==> Compare(a, c, canonicalize) < 0
    ensures forall a: Diagnostic, b: Diagnostic ::
      Compare(a, b, canonicalize) == 0 <==> KeyOf(a, canonicalize) == KeyOf(b, canonicalize)
    ensures Injective(canonicalize) ==> forall a: Diagnostic, b: Diagnostic ::
      Compare(a, b, canonicalize) == 0 <==> a == b
  {
    KeyOrdering();
    if Injective(canonicalize) {
      forall a: Diagnostic, b: Diagnostic | KeyOf(a, canonicalize) == KeyOf(b, canonicalize) ensures a == b {
        RanksInjective();
        assert Fields(a.coordinate)[0] == Fields(b.coordinate)[0] && Fields(a.coordinate)[1] == Fields(b.coordinate)[1]
            && Fields(a.coordinate)[2] == Fields(b.coordinate)[2] && Fields(a.coordinate)[3] == Fields(b.coordinate)[3];
      }
    }
  }

  // ---------- what the order is ----------

  const PHASES: seq<Phase> := [Decode, Schema, Declaration, Profile, Binding, Graph, Output]

  /** The published codes, in their published order. */
  function PublishedCodes(): seq<Code> {
    [
      InvalidByteCarrier, InvalidJson, DuplicateKey, LimitExceeded, UnsupportedVersion, UnknownField, InvalidValue,
      NonPlainValue, IdentityInvalid, DuplicateImplementation, DuplicateCapability, DuplicateSlot, DuplicateRoot,
      UnknownRoot, DuplicateSelection, UnknownModule, UnknownImplementation, ImplementationMismatch,
      MissingSelection, UnreachableSelection, DuplicateRecord, DuplicateProvider, BindingMissing, UnknownConsumer,
      UnknownSlot, UnknownProvider, ProviderNotSelected, CardinalityMismatch, CapabilityMissing,
      CompatibilityMismatch, GraphCycle, Truncated
    ]
  }

  ghost predicate ListedBefore<T>(list: seq<T>, x: T, y: T) {
    exists i, j :: 0 <= i < j < |list| && list[i] == x && list[j] == y
  }

  /** The first place where they differ decides, and a proper prefix comes first. */
  ghost predicate FirstDiffers<T>(less: (T, T) -> bool, a: seq<T>, b: seq<T>) {
    exists k :: 0 <= k <= |a| && k < |b| && a[..k] == b[..k] && (k == |a| || less(a[k], b[k]))
  }

  /** An absent field comes before any text. */
  ghost predicate FieldBefore(a: Option<string>, b: Option<string>) {
    b.Some? && (a.None? || TextBefore(a.value, b.value))
  }

  /** Fields come before indexes. */
  ghost predicate SegmentBefore(a: Segment, b: Segment) {
    match (a, b)
    case (Field(x), Field(y)) => TextBefore(x, y)
    case (Index(x), Index(y)) => x < y
    case (Field(_), Index(_)) => true
    case (Index(_), Field(_)) => false
  }

  /** The first of the four fields that differs decides. */
  ghost predicate CoordinateBefore(a: Coordinate, b: Coordinate) {
    || FieldBefore(a.moduleId, b.moduleId)
    || (a.moduleId == b.moduleId && FieldBefore(a.implementationId, b.implementationId))
    || (a.moduleId == b.moduleId && a.implementationId == b.implementationId && FieldBefore(a.slotId, b.slotId))
    || (a.moduleId == b.moduleId && a.implementationId == b.implementationId && a.slotId == b.slotId
        && FieldBefore(a.providerImplementationId, b.providerImplementationId))
  }

  /** Cycles are ordered by their components, and everything else by the canonical bytes of the details. */
  ghost predicate DetailsBefore(a: Diagnostic, b: Diagnostic, canonicalize: Canonicalize) {
    if a.code == GraphCycle && b.code == GraphCycle then
      FirstDiffers(TextBefore, a.details.component, b.details.component)
    else FirstDiffers((x: int, y: int) => x < y, canonicalize(a.details), canonicalize(b.details))
  }

  /** Earlier phases first, then earlier codes, then coordinates, then paths, then details. */
  ghost predicate Precedes(a: Diagnostic, b: Diagnostic, canonicalize: Canonicalize) {
    || ListedBefore(PHASES, a.phase, b.phase)
    || (a.phase == b.phase && ListedBefore(PublishedCodes(), a.code, b.code))
    || (a.phase == b.phase && a.code == b.code && CoordinateBefore(a.coordinate, b.coordinate))
    || (a.phase == b.phase && a.code == b.code && a.coordinate == b.coordinate
        && FirstDiffers(SegmentBefore, a.path, b.path))
    || (a.phase == b.phase && a.code == b.code && a.coordinate == b.coordinate && a.path == b.path
        && DetailsBefore(a, b, canonicalize))
  }

  /** Ranks that increase along a list say which of two members comes first. */
  lemma RanksOrder<T>(list: seq<T>, rank: T -> int, x: T, y: T)
    requires x in list && y in list
    requires forall i, j :: 0 <= i < j < |list| ==> rank(list[i]) < rank(list[j])
    ensures rank(x) < rank(y) <==> ListedBefore(list, x, y)
  {
    if rank(x) < rank(y) {
      var i :| 0 <= i < |list| && list[i] == x;
      var j :| 0 <= j < |list| && list[j] == y;
      assert i < j;
    }
  }

  lemma PhaseOrder(p: Phase, q: Phase)
    ensures PhaseRank(p) < PhaseRank(q) <==> ListedBefore(PHASES, p, q)
  {
    assert PHASES[PhaseRank(p)] == p && PHASES[PhaseRank(q)] == q;
    assert forall i :: 0 <= i < |PHASES| ==> PhaseRank(PHASES[i]) == i;
    RanksOrder(PHASES, PhaseRank, p, q);
  }

  lemma CodeListed(c: Code)
    ensures c in PublishedCodes()
  {
    assert PublishedCodes()[if c == Truncated then 31 else CodeRank(c)] == c;
  }

  /** The code that is never reported leaves a gap before the last rank. */
  lemma CodeAt(i: nat)
    requires i < |PublishedCodes()|
    ensures CodeRank(PublishedCodes()[i]) == if i == 31 then 32 else i
    ensures |PublishedCodes()| == 32
  {
  }

  lemma CodesRise(i: nat, j: nat)
    requires i < j < |PublishedCodes()|
    ensures CodeRank(PublishedCodes()[i]) < CodeRank(PublishedCodes()[j])
  {
    hide CodeRank, PublishedCodes;
    CodeAt(i);
    CodeAt(j);
  }

  lemma CodeOrder(c: Code, d: Code)
    ensures CodeRank(c) < CodeRank(d) <==> ListedBefore(PublishedCodes(), c, d)
  {
    hide CodeRank, ListedBefore, PublishedCodes;
    CodeListed(c);
    CodeListed(d);
    forall i, j | 0 <= i < j < |PublishedCodes()|
      ensures CodeRank(PublishedCodes()[i]) < CodeRank(PublishedCodes()[j]) {
      CodesRise(i, j);
    }
    RanksOrder(PublishedCodes(), CodeRank, c, d);
  }

  ghost predicate Agrees<T(!new)>(cmp: (T, T) -> int, less: (T, T) -> bool) {
    forall x, y :: (cmp(x, y) < 0 <==> less(x, y)) && (cmp(x, y) == 0 <==> x == y)
  }

  lemma {:induction false} ListsMean<T(!new)>(cmp: (T, T) -> int, less: (T, T) -> bool, a: seq<T>, b: seq<T>)
    requires Agrees(cmp, less)
    ensures CompareLists(cmp, a, b) < 0 <==> FirstDiffers(less, a, b)
    ensures CompareLists(cmp, a, b) == 0 <==> a == b
  {
    if a != [] && b != [] && a[0] == b[0] {
      ListsMean(cmp, less, a[1..], b[1..]);
      DiffersByTail(less, a, b);
      assert a == [a[0]] + a[1..] && b == [b[0]] + b[1..];
    } else if CompareLists(cmp, a, b) < 0 {
      assert a[..0] == b[..0];
    }
  }

  lemma DiffersByTail<T>(less: (T, T) -> bool, a: seq<T>, b: seq<T>)
    requires a != [] && b != [] && a[0] == b[0] && !less(a[0], b[0])
    ensures FirstDiffers(less, a, b) <==> FirstDiffers(less, a[1..], b[1..])
  {
    if FirstDiffers(less, a, b) {
      var k :| 0 <= k <= |a| && k < |b| && a[..k] == b[..k] && (k == |a| || less(a[k], b[k]));
      assert a[1..][..k - 1] == a[..k][1..] && b[1..][..k - 1] == b[..k][1..];
    }
    if FirstDiffers(less, a[1..], b[1..]) {
      var k :| 0 <= k < |a| && k < |b| - 1 && a[1..][..k] == b[1..][..k]
        && (k == |a| - 1 || less(a[1..][k], b[1..][k]));
      assert a[..k + 1] == [a[0]] + a[1..][..k] && b[..k + 1] == [b[0]] + b[1..][..k];
    }
  }

  lemma LexicalAgrees()
    ensures Agrees(Lexical, TextBefore)
  {
    forall x, y ensures (Lexical(x, y) < 0 <==> TextBefore(x, y)) && (Lexical(x, y) == 0 <==> x == y) {
      TextLessMeans(x, y);
      TextTrichotomy(x, y);
    }
  }

  lemma SegmentsAgree()
    ensures Agrees(CompareSegment, SegmentBefore)
  {
    LexicalAgrees();
    hide TextBefore, Lexical;
  }

  lemma OptionalAgrees()
    ensures Agrees(CompareOptional, FieldBefore)
  {
    LexicalAgrees();
    hide TextBefore, Lexical;
  }

  lemma CoordinatesMean(a: Coordinate, b: Coordinate)
    ensures CompareLists(CompareOptional, Fields(a), Fields(b)) < 0 <==> CoordinateBefore(a, b)
    ensures CompareLists(CompareOptional, Fields(a), Fields(b)) == 0 <==> a == b
  {
    hide CompareOptional, FieldBefore, CompareLists;
    OptionalAgrees();
    FourFields(Fields(a), Fields(b));
  }

  lemma ListStep<T>(cmp: (T, T) -> int, a: seq<T>, b: seq<T>)
    requires a != [] && b != []
    ensures CompareLists(cmp, a, b) == Then(cmp(a[0], b[0]), CompareLists(cmp, a[1..], b[1..]))
  {
  }

  lemma FourFields(x: seq<Option<string>>, y: seq<Option<string>>)
    requires |x| == |y| == 4
    ensures CompareLists(CompareOptional, x, y) ==
      Then(CompareOptional(x[0], y[0]), Then(CompareOptional(x[1], y[1]),
        Then(CompareOptional(x[2], y[2]), CompareOptional(x[3], y[3]))))
  {
    hide CompareOptional, CompareLists;
    ListStep(CompareOptional, x, y);
    ListStep(CompareOptional, x[1..], y[1..]);
    ListStep(CompareOptional, x[2..], y[2..]);
    ListStep(CompareOptional, x[3..], y[3..]);
    NothingLeft(x[4..], y[4..]);
    assert x[1..][1..] == x[2..] && x[2..][1..] == x[3..] && x[3..][1..] == x[4..];
    assert y[1..][1..] == y[2..] && y[2..][1..] == y[3..] && y[3..][1..] == y[4..];
  }

  lemma NothingLeft(x: seq<Option<string>>, y: seq<Option<string>>)
    requires x == [] && y == []
    ensures CompareLists(CompareOptional, x, y) == 0
  {
  }

  lemma BytesAgree()
    ensures Agrees(CompareInt, (x: int, y: int) => x < y)
  {
  }

  lemma DetailsMean(a: Diagnostic, b: Diagnostic, canonicalize: Canonicalize)
    requires a.code == b.code
    ensures CompareTails(TailOf(a, canonicalize), TailOf(b, canonicalize)) < 0 <==> DetailsBefore(a, b, canonicalize)
  {
    LexicalAgrees();
    BytesAgree();
    if a.code == GraphCycle {
      ListsMean(Lexical, TextBefore, a.details.component, b.details.component);
    } else {
      ListsMean(CompareInt, (x: int, y: int) => x < y, canonicalize(a.details), canonicalize(b.details));
    }
  }

  /** The comparator is the order in which diagnostics are to be reported. */
  lemma CompareMeans(a: Diagnostic, b: Diagnostic, canonicalize: Canonicalize)
    ensures Compare(a, b, canonicalize) < 0 <==> Precedes(a, b, canonicalize)
  {
    hide PhaseRank, CodeRank, ListedBefore, CompareLists, CoordinateBefore, FirstDiffers, DetailsBefore, CompareTails,
         Fields, TailOf, Agrees;
    RanksInjective();
    PhaseOrder(a.phase, b.phase);
    CodeOrder(a.code, b.code);
    CoordinatesMean(a.coordinate, b.coordinate);
    SegmentsAgree();
    ListsMean(CompareSegment, SegmentBefore, a.path, b.path);
    if a.code == b.code { DetailsMean(a, b, canonicalize); }
  }

  // ---------- the comparator as the program runs it ----------

  method CompareCoordinates(a: Coordinate, b: Coordinate) returns (r: int)
    ensures r == CompareLists(CompareOptional, Fields(a), Fields(b))
  {
    var left, right := Fields(a), Fields(b);
    for i := 0 to 4
      invariant CompareLists(CompareOptional, left, right) == CompareLists(CompareOptional, left[i..], right[i..])
    {
      var order := CompareOptional(left[i], right[i]);
      if order != 0 { return order; }
    }
    return 0;
  }

  method ComparePaths(a: seq<Segment>, b: seq<Segment>) returns (r: int)
    ensures r == CompareLists(CompareSegment, a, b)
  {
    for i := 0 to Min(|a|, |b|)
      invariant CompareLists(CompareSegment, a, b) == CompareLists(CompareSegment, a[i..], b[i..])
    {
      if a[i].Field? != b[i].Field? { return if a[i].Field? then -1 else 1; }
      var order := CompareSegment(a[i], b[i]);
      if order != 0 { return order; }
    }
    return |a| - |b|;
  }

  method CompareCycles(a: seq<string>, b: seq<string>) returns (r: int)
    ensures r == CompareLists(Lexical, a, b)
  {
    for i := 0 to Min(|a|, |b|)
      invariant CompareLists(Lexical, a, b) == CompareLists(Lexical, a[i..], b[i..])
    {
      var order := Lexical(a[i], b[i]);
      if order != 0 { return order; }
    }
    return |a| - |b|;
  }

  method CompareBytes(a: seq<int>, b: seq<int>) returns (r: int)
    ensures r == CompareLists(CompareInt, a, b)
  {
    for i := 0 to Min(|a|, |b|)
      invariant CompareLists(CompareInt, a, b) == CompareLists(CompareInt, a[i..], b[i..])
    {
      if a[i] != b[i] { return a[i] - b[i]; }
    }
    return |a| - |b|;
  }

  method CompareDiagnostics(left: Diagnostic, right: Diagnostic, canonicalize: Canonicalize) returns (r: int)
    ensures r == Compare(left, right, canonicalize)
    ensures r < 0 <==> Precedes(left, right, canonicalize)
    ensures r > 0 <==> Precedes(right, left, canonicalize)
  {
    RanksInjective();
    CompareMeans(left, right, canonicalize);
    CompareMeans(right, left, canonicalize);
    KeyLevel(KeyOf(left, canonicalize), KeyOf(right, canonicalize), KeyOf(right, canonicalize));
    KeyLevel(KeyOf(right, canonicalize), KeyOf(left, canonicalize), KeyOf(left, canonicalize));
    hide CompareLists, CodeRank, PhaseRank, Precedes;
    r := PhaseRank(left.phase) - PhaseRank(right.phase);
    if r == 0 { r := CodeRank(left.code) - CodeRank(right.code); }
    if r != 0 { return; }
    r := CompareCoordinates(left.coordinate, right.coordinate);
    if r != 0 { return; }
    r := ComparePaths(left.path, right.path);
    if r != 0 { return; }
    if left.code == GraphCycle && right.code == GraphCycle {
      r := CompareCycles(left.details.component, right.details.component);
    } else {
      r := CompareBytes(canonicalize(left.details), canonicalize(right.details));
    }
  }
}
