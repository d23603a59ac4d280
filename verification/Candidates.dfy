/** The diagnostics that the semantic stages may report, before they are normalised (composition-semantics). */
module Candidates {
  import opened Sequences
  import opened Text
  import opened Paths
  import D = DiagnosticOrder

  /** What a slot asks for, as a diagnostic names it. */
  datatype SlotKind = RequiredSlot | OptionalSlot | ManySlot

  datatype Candidate =
    | DuplicateImplementation(implementationId: Id)
    | DuplicateCapability(implementationId: Id, index: nat)
    | DuplicateSlot(implementationId: Id, slotId: Id, index: nat)
    | DuplicateSelection(moduleId: Id)
    | UnknownModule(moduleId: Id)
    | UnknownImplementation(moduleId: Id, implementationId: Id)
    | ImplementationMismatch(moduleId: Id, implementationId: Id)
    | DuplicateRoot(moduleId: Id)
    | UnknownRoot(moduleId: Id)
    | MissingSelection(moduleId: Id)
    | DuplicateRecord(consumer: Id, slotId: Id)
    | UnknownConsumer(consumer: Id)
    | UnknownSlot(consumer: Id, slotId: Id)
    | MissingBinding(consumer: Id, slotId: Id)
    | CardinalityMismatch(consumer: Id, slotId: Id, expected: SlotKind, actual: nat)
    | DuplicateProvider(consumer: Id, slotId: Id, provider: Id)
    | UnknownProvider(consumer: Id, slotId: Id, provider: Id)
    | ProviderNotSelected(consumer: Id, slotId: Id, provider: Id)
    | CapabilityMissing(consumer: Id, slotId: Id, provider: Id)
    | CompatibilityMismatch(consumer: Id, slotId: Id, provider: Id, expectedToken: string, actualToken: string)
    | TooManyProviders(ordinal: nat)
    | TooManyEdges
    | TooDeep
    | Cycle(component: seq<Id>)
    | Unreachable(moduleId: Id, implementationId: Id)

  function CoordinateOf(moduleId: Option<Id>, implementationId: Option<Id>, slotId: Option<Id>, provider: Option<Id>)
    : D.Coordinate
  {
    D.Coordinate(moduleId, implementationId, slotId, provider)
  }

  function Listed(field: string, index: nat): Path {
    [Field(field), Index(index)]
  }

  function KindText(kind: SlotKind): string {
    match kind case RequiredSlot => "required" case OptionalSlot => "optional" case ManySlot => "many"
  }

  function KindFrom(text: string): SlotKind {
    if text == "required" then RequiredSlot else if text == "optional" then OptionalSlot else ManySlot
  }

  /** The normalised diagnostic: phase, code, coordinate, path and details. */
  function Normalize(c: Candidate): D.Diagnostic {
    match c
    case DuplicateImplementation(i) =>
      D.Record(D.Declaration, D.DuplicateImplementation, CoordinateOf(None, Some(i), None, None), [],
        D.Reason("duplicate"))
    case DuplicateCapability(i, n) =>
      D.Record(D.Declaration, D.DuplicateCapability, CoordinateOf(None, Some(i), None, None), Listed("provides", n),
        D.Reason("duplicate"))
    case DuplicateSlot(i, s, n) =>
      D.Record(D.Declaration, D.DuplicateSlot, CoordinateOf(None, Some(i), Some(s), None), Listed("slots", n),
        D.Reason("duplicate"))
    case DuplicateSelection(m) =>
      D.Record(D.Profile, D.DuplicateSelection, CoordinateOf(Some(m), None, None, None), [], D.Reason("duplicate"))
    case UnknownModule(m) =>
      D.Record(D.Profile, D.UnknownModule, CoordinateOf(Some(m), None, None, None), [], D.Reason("unknown"))
    case UnknownImplementation(m, i) =>
      D.Record(D.Profile, D.UnknownImplementation, CoordinateOf(Some(m), Some(i), None, None), [], D.Reason("unknown"))
    case ImplementationMismatch(m, i) =>
      D.Record(D.Profile, D.ImplementationMismatch, CoordinateOf(Some(m), Some(i), None, None), [],
        D.Reason("mismatch"))
    case DuplicateRoot(m) =>
      D.Record(D.Profile, D.DuplicateRoot, CoordinateOf(Some(m), None, None, None), [], D.Reason("duplicate"))
    case UnknownRoot(m) =>
      D.Record(D.Profile, D.UnknownRoot, CoordinateOf(Some(m), None, None, None), [], D.Reason("unknown"))
    case MissingSelection(m) =>
      D.Record(D.Profile, D.MissingSelection, CoordinateOf(Some(m), None, None, None), [], D.Reason("missing"))
    case DuplicateRecord(i, s) =>
      D.Record(D.Binding, D.DuplicateRecord, CoordinateOf(None, Some(i), Some(s), None), [], D.Reason("duplicate"))
    case UnknownConsumer(i) =>
      D.Record(D.Binding, D.UnknownConsumer, CoordinateOf(None, Some(i), None, None), [], D.Reason("unknown"))
    case UnknownSlot(i, s) =>
      D.Record(D.Binding, D.UnknownSlot, CoordinateOf(None, Some(i), Some(s), None), [], D.Reason("unknown"))
    case MissingBinding(i, s) =>
      D.Record(D.Binding, D.BindingMissing, CoordinateOf(None, Some(i), Some(s), None), [], D.Reason("missing"))
    case CardinalityMismatch(i, s, kind, n) =>
      D.Record(D.Binding, D.CardinalityMismatch, CoordinateOf(None, Some(i), Some(s), None), [],
        D.Cardinality(KindText(kind), n))
    case DuplicateProvider(i, s, p) =>
      D.Record(D.Binding, D.DuplicateProvider, CoordinateOf(None, Some(i), Some(s), Some(p)), [], D.Reason("duplicate"))
    case UnknownProvider(i, s, p) =>
      D.Record(D.Binding, D.UnknownProvider, CoordinateOf(None, Some(i), Some(s), Some(p)), [], D.Reason("unknown"))
    case ProviderNotSelected(i, s, p) =>
      D.Record(D.Binding, D.ProviderNotSelected, CoordinateOf(None, Some(i), Some(s), Some(p)), [],
        D.Reason("mismatch"))
    case CapabilityMissing(i, s, p) =>
      D.Record(D.Binding, D.CapabilityMissing, CoordinateOf(None, Some(i), Some(s), Some(p)), [], D.Reason("missing"))
    case CompatibilityMismatch(i, s, p, e, a) =>
      D.Record(D.Binding, D.CompatibilityMismatch, CoordinateOf(None, Some(i), Some(s), Some(p)), [],
        D.Compatibility(e, a))
    case TooManyProviders(n) =>
      D.Record(D.Binding, D.LimitExceeded, CoordinateOf(None, None, None, None),
               [Field("profile"), Field("bindings"), Index(n), Field("providerImplementationIds")],
                 D.Limit("providersPerManySlot", 1024, 1025))
    case TooManyEdges =>
      D.Record(D.Graph, D.LimitExceeded, CoordinateOf(None, None, None, None), [],
        D.Limit("graphEdges", 262144, 262145))
    case TooDeep =>
      D.Record(D.Graph, D.LimitExceeded, CoordinateOf(None, None, None, None), [], D.Limit("graphDepth", 2048, 2049))
    case Cycle(c) => D.Record(D.Graph, D.GraphCycle, CoordinateOf(None, None, None, None), [], D.Component(c))
    case Unreachable(m, i) =>
      D.Record(D.Graph, D.UnreachableSelection, CoordinateOf(Some(m), Some(i), None, None), [], D.Reason("unreachable"))
  }

  function IndexIn(path: Path): nat {
    if |path| == 2 && path[1].Index? then path[1].index else if |path| == 4 && path[2].Index? then path[2].index else 0
  }

  function Or(value: Option<Id>): Id {
    if value.Some? then value.value else ""
  }

  /** The candidate that a normalised diagnostic stands for. */
  function Denormalize(d: D.Diagnostic): Option<Candidate> {
    var m, i, s, p :=
      Or(d.coordinate.moduleId), Or(d.coordinate.implementationId), Or(d.coordinate.slotId),
        Or(d.coordinate.providerImplementationId);
    match d.code
    case DuplicateImplementation => Some(DuplicateImplementation(i))
    case DuplicateCapability => Some(DuplicateCapability(i, IndexIn(d.path)))
    case DuplicateSlot => Some(DuplicateSlot(i, s, IndexIn(d.path)))
    case DuplicateSelection => Some(DuplicateSelection(m))
    case UnknownModule => Some(UnknownModule(m))
    case UnknownImplementation => Some(UnknownImplementation(m, i))
    case ImplementationMismatch => Some(ImplementationMismatch(m, i))
    case DuplicateRoot => Some(DuplicateRoot(m))
    case UnknownRoot => Some(UnknownRoot(m))
    case MissingSelection => Some(MissingSelection(m))
    case DuplicateRecord => Some(DuplicateRecord(i, s))
    case UnknownConsumer => Some(UnknownConsumer(i))
    case UnknownSlot => Some(UnknownSlot(i, s))
    case BindingMissing => Some(MissingBinding(i, s))
    case CardinalityMismatch =>
      if d.details.Cardinality? then
        Some(CardinalityMismatch(i, s, KindFrom(d.details.expectedCardinality), d.details.actualCardinality))
      else None
    case DuplicateProvider => Some(DuplicateProvider(i, s, p))
    case UnknownProvider => Some(UnknownProvider(i, s, p))
    case ProviderNotSelected => Some(ProviderNotSelected(i, s, p))
    case CapabilityMissing => Some(CapabilityMissing(i, s, p))
    case CompatibilityMismatch =>
      if d.details.Compatibility? then
        Some(CompatibilityMismatch(i, s, p, d.details.expectedToken, d.details.actualToken))
      else None
    case LimitExceeded =>
      if d.phase == D.Binding then Some(TooManyProviders(IndexIn(d.path)))
      else if d.details.Limit? && d.details.limit == 262144 then Some(TooManyEdges) else Some(TooDeep)
    case GraphCycle => Some(Cycle(d.details.component))
    case UnreachableSelection => Some(Unreachable(m, i))
    case _ => None
  }

  ghost predicate OfDeclarations(c: Candidate) {
    c.DuplicateImplementation? || c.DuplicateCapability? || c.DuplicateSlot? || c.DuplicateSelection?
      || c.UnknownModule?
    || c.UnknownImplementation? || c.ImplementationMismatch? || c.DuplicateRoot? || c.UnknownRoot?
    || c.MissingSelection?
  }

  ghost predicate OfRows(c: Candidate) {
    c.CardinalityMismatch? || c.DuplicateProvider? || c.UnknownProvider? || c.ProviderNotSelected?
      || c.CapabilityMissing? || c.CompatibilityMismatch?
  }

  lemma RoundTripDeclarations(c: Candidate)
    requires OfDeclarations(c)
    ensures Denormalize(Normalize(c)) == Some(c)
  {
    if c.DuplicateCapability? { assert IndexIn(Listed("provides", c.index)) == c.index; }
    if c.DuplicateSlot? { assert IndexIn(Listed("slots", c.index)) == c.index; }
  }

  lemma RoundTripRows(c: Candidate)
    requires OfRows(c)
    ensures Denormalize(Normalize(c)) == Some(c)
  {
  }

  lemma RoundTripOthers(c: Candidate)
    requires !OfDeclarations(c) && !OfRows(c)
    ensures Denormalize(Normalize(c)) == Some(c)
  {
    if c.TooManyProviders? { assert IndexIn(Normalize(c).path) == c.ordinal; }
  }

  /** Normalising loses nothing, so distinct candidates stay distinct. */
  lemma NormalizeRoundTrip(c: Candidate)
    ensures Denormalize(Normalize(c)) == Some(c)
  {
    hide *;
    if OfDeclarations(c) {
      RoundTripDeclarations(c);
    } else if OfRows(c) {
      RoundTripRows(c);
    } else {
      RoundTripOthers(c);
    }
  }

  /** A stage reports each of these once, and nothing else. */
  ghost predicate Exactly(s: seq<Candidate>, reports: set<Candidate>) {
    Distinct(s) && Elements(s) == reports
  }

  lemma ExactlyOne(s: seq<Candidate>, reports: set<Candidate>, c: Candidate)
    requires Exactly(s, reports) && c !in reports
    ensures Exactly(s + [c], reports + {c})
  {
    assert c !in s;
  }

  lemma ExactlyBoth(s: seq<Candidate>, a: set<Candidate>, t: seq<Candidate>, b: set<Candidate>)
    requires Exactly(s, a) && Exactly(t, b) && a !! b
    ensures Exactly(s + t, a + b)
  {
    forall i, j | 0 <= i < |s| && 0 <= j < |t| ensures s[i] != t[j] { assert s[i] in a && t[j] in b; }
  }

  lemma ExactlyEmpty(s: seq<Candidate>, reports: set<Candidate>)
    requires Exactly(s, reports)
    ensures s == [] <==> reports == {}
  {
    if s != [] { assert s[0] in reports; }
  }

  lemma ExactlySame(s: seq<Candidate>, t: seq<Candidate>, reports: set<Candidate>)
    requires Exactly(s, reports) && Exactly(t, reports)
    ensures multiset(s) == multiset(t)
  {
    assert forall c :: c in s <==> c in reports;
    assert forall c :: c in t <==> c in reports;
    SameElementsPermute(s, t);
  }
}
