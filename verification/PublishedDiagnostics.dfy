/** What the published type of a diagnostic says of its phase, coordinate and details (diagnostic-types.ts). */
module PublishedDiagnostics {
  import opened Sequences
  import opened Text
  import opened Paths
  import opened DiagnosticOrder
  import C = Candidates
  import R = GraphResources
  import S = SemanticAnalysis

  // ---------- the phase ----------

  ghost predicate OfDecode(code: Code) {
    code in {InvalidByteCarrier, InvalidJson, DuplicateKey}
  }

  ghost predicate OfSchema(code: Code) {
    code in {UnsupportedVersion, UnknownField, InvalidValue, NonPlainValue, IdentityInvalid}
  }

  ghost predicate OfDeclaration(code: Code) {
    code in {DuplicateImplementation, DuplicateCapability, DuplicateSlot}
  }

  ghost predicate OfProfile(code: Code) {
    code in {DuplicateRoot, UnknownRoot, DuplicateSelection, UnknownModule, UnknownImplementation,
             ImplementationMismatch, MissingSelection}
  }

  ghost predicate OfGraph(code: Code) {
    code in {UnreachableSelection, GraphCycle}
  }

  ghost predicate OfBinding(code: Code) {
    code in {DuplicateRecord, DuplicateProvider, BindingMissing, UnknownConsumer, UnknownSlot, UnknownProvider,
             ProviderNotSelected, CardinalityMismatch, CapabilityMissing, CompatibilityMismatch}
  }

  /** A limit belongs to the phase that checks it. */
  ghost predicate LimitPhase(name: string, phase: Phase) {
    && (name in {"jsonValueOccurrences", "identifierBytes"} ==> phase == Schema)
    && (name in {"ownerPathSegments", "declarations", "capabilitiesPerDeclaration", "slotsPerDeclaration"} ==>
          phase == Declaration)
    && (name in {"totalCapabilities", "totalSlots"} ==> phase == Declaration)
    && (name in {"roots", "selections", "bindings"} ==> phase == Profile)
    && (name == "providersPerManySlot" ==> phase == Binding)
    && (name in {"graphEdges", "graphDepth"} ==> phase == Graph)
    && (name in {"diagnostics", "diagnosticPathSegments"} ==> phase == Output)
    && (name in {"declarationRawDocumentBytes", "profileRawDocumentBytes", "aggregateRawBytes"} ==> phase == Decode)
    && (name in {"jsonDepth", "aggregateStringBytes"} ==> phase == Decode)
  }

  ghost predicate PhasePublished(d: Diagnostic) {
    && (OfDecode(d.code) ==> d.phase == Decode)
    && (OfSchema(d.code) ==> d.phase == Schema)
    && (OfDeclaration(d.code) ==> d.phase == Declaration)
    && (OfProfile(d.code) ==> d.phase == Profile)
    && (OfBinding(d.code) ==> d.phase == Binding)
    && (OfGraph(d.code) ==> d.phase == Graph)
    && (d.code == Truncated ==> d.phase == Output)
    && (d.code == LimitExceeded ==> d.details.Limit? && LimitPhase(d.details.limitName, d.phase))
  }

  // ---------- the coordinate ----------

  /** Which of the fields of a coordinate are there. */
  ghost predicate Names(c: Coordinate, moduleId: bool, implementationId: bool, slotId: bool, provider: bool) {
    && c.moduleId.Some? == moduleId && c.implementationId.Some? == implementationId && c.slotId.Some? == slotId
    && c.providerImplementationId.Some? == provider
  }

  ghost predicate CoordinatePublished(d: Diagnostic) {
    if d.code in {DuplicateRoot, UnknownRoot, DuplicateSelection, UnknownModule, MissingSelection} then
      Names(d.coordinate, true, false, false, false)
    else if d.code in {DuplicateImplementation, DuplicateCapability, UnknownConsumer} then
      Names(d.coordinate, false, true, false, false)
    else if d.code in {UnknownImplementation, ImplementationMismatch, UnreachableSelection} then
      Names(d.coordinate, true, true, false, false)
    else if d.code in {DuplicateSlot, DuplicateRecord, BindingMissing, UnknownSlot, CardinalityMismatch} then
      Names(d.coordinate, false, true, true, false)
    else if OfBinding(d.code) then Names(d.coordinate, false, true, true, true)
    else Names(d.coordinate, false, false, false, false)
  }

  // ---------- the details ----------

  ghost predicate Because(d: Diagnostic, reason: string) {
    d.details == Reason(reason)
  }

  ghost predicate DetailsPublished(d: Diagnostic) {
    match d.code
    case CardinalityMismatch =>
      d.details.Cardinality? && d.details.expectedCardinality in {"required", "optional", "many"}
    case CompatibilityMismatch => d.details.Compatibility?
    case GraphCycle => d.details.Component?
    case Truncated => d.details.Omitted?
    case LimitExceeded => d.details.Limit? && d.details.actual > d.details.limit
    case _ =>
      if OfDeclaration(d.code)
        || d.code in {DuplicateRoot, DuplicateSelection, DuplicateRecord, DuplicateProvider}
      then Because(d, "duplicate")
      else if d.code in {UnknownRoot, UnknownModule, UnknownImplementation, UnknownConsumer, UnknownSlot,
                         UnknownProvider}
      then Because(d, "unknown")
      else if d.code in {ImplementationMismatch, ProviderNotSelected} then Because(d, "mismatch")
      else if d.code in {MissingSelection, BindingMissing, CapabilityMissing} then Because(d, "missing")
      else if d.code == UnreachableSelection then Because(d, "unreachable")
      else d.details.Reason?
  }

  ghost predicate Published(d: Diagnostic) {
    PhasePublished(d) && CoordinatePublished(d) && DetailsPublished(d)
  }

  // ---------- where it points ----------

  /** A repeated part of a declaration is found by its list and its place there; a row by its place in the profile. */
  ghost predicate Points(c: C.Candidate, path: Path) {
    match c
    case DuplicateCapability(_, n) => path == [Field("provides"), Index(n)]
    case DuplicateSlot(_, _, n) => path == [Field("slots"), Index(n)]
    case TooManyProviders(n) =>
      path == [Field("profile"), Field("bindings"), Index(n), Field("providerImplementationIds")]
    case _ => path == []
  }

  lemma DeclarationsPublished(c: C.Candidate)
    requires C.OfDeclarations(c)
    ensures Published(C.Normalize(c)) && Points(c, C.Normalize(c).path)
  {
  }

  lemma RowsPublished(c: C.Candidate)
    requires C.OfRows(c)
    ensures Published(C.Normalize(c)) && Points(c, C.Normalize(c).path)
  {
  }

  ghost predicate OfLimits(c: C.Candidate) {
    c.TooManyProviders? || c.TooManyEdges? || c.TooDeep?
  }

  lemma LimitsPublished(c: C.Candidate)
    requires OfLimits(c)
    ensures Published(C.Normalize(c)) && Points(c, C.Normalize(c).path)
  {
  }

  /** A limit that the stages check is reported under its name, with one more than it allows. */
  lemma LimitsNamed(c: C.Candidate)
    requires OfLimits(c)
    ensures c.TooManyProviders? ==>
      C.Normalize(c).details ==
        Limit("providersPerManySlot", R.PROVIDERS_PER_MANY_SLOT, R.PROVIDERS_PER_MANY_SLOT + 1)
    ensures c.TooManyEdges? ==> C.Normalize(c).details == Limit("graphEdges", R.GRAPH_EDGES, R.GRAPH_EDGES + 1)
    ensures c.TooDeep? ==> C.Normalize(c).details == Limit("graphDepth", S.GRAPH_DEPTH, S.GRAPH_DEPTH + 1)
  {
  }

  lemma OthersPublished(c: C.Candidate)
    requires !C.OfDeclarations(c) && !C.OfRows(c) && !OfLimits(c)
    ensures Published(C.Normalize(c)) && Points(c, C.Normalize(c).path)
  {
  }

  /** What the stages report is normalized to diagnostics of the published type, which point where they should. */
  lemma NormalizedIsPublished(c: C.Candidate)
    ensures Published(C.Normalize(c)) && Points(c, C.Normalize(c).path)
  {
    hide *;
    if C.OfDeclarations(c) {
      DeclarationsPublished(c);
    } else if C.OfRows(c) {
      RowsPublished(c);
    } else if OfLimits(c) {
      LimitsPublished(c);
    } else {
      OthersPublished(c);
    }
  }
}
