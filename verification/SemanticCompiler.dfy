/** The whole compilation: stages, collector, prerequisites, plan (semantic-analysis.ts). */
module SemanticCompiler {
  import opened Sequences
  import opened Text
  import opened Composition
  import opened Candidates
  import opened DeclarationCensus
  import opened ProfileCensus
  import opened SelectedBindings
  import opened GraphResources
  import opened SemanticAnalysis
  import opened CompositionValidity
  import opened CompiledPlans
  import opened PublishedDiagnostics
  import opened DiagnosticCollector
  import D = DiagnosticOrder
  import G = SelectedGraph

  /** Nothing reported, neither by admission nor by the stages: every prerequisite of a plan is there. */
  lemma PrerequisitesHold(i: Input, d: Derived)
    requires Truthful(i, []) && Derives(i, d) && AllReports(i, d) == {}
    ensures i.profile.Some? && d.selected.roots.Some? && d.analysis.Some? && d.analysis.value.dependencyOrder.Some?
  {
    var p := i.profile.value;
    StagesEmpty(i, p, d);
    hide AllReports, CensusReports, ProfileReports, BindingReports, CensusOf, DeclaredOnce, RootsResolved,
         GraphReports, BindingsOf, G.Correct, OverfullReports, Occurrences;
    CensusClean(i.declarations);
    ProfileClean(i.declarations, d.census, p);
    RootsGiveNodes(d.census, p, d.selected);
    assert TooManyEdges !in ResourceReports(d.census, i.observations);
    OrderFound(d.selected, d.bindings, d.analysis.value, RootsOr(d.selected.roots));
  }

  lemma OrderFound(s: Selected, b: Bindings, a: G.Analysis, roots: seq<Id>)
    requires G.Correct(s.ids, EdgesOf(b.valid), roots, a) && GraphReports(s, b, a) == {}
    ensures a.dependencyOrder.Some?
  {
    hide G.CycleReports, G.LongestWalk, G.RootClosure, G.LeastDependencyOrder, EdgesOf;
    assert FailureReports(a) <= GraphReports(s, b, a);
    FailuresEmpty(a);
  }

  /**
   * The compiler. It never throws: without diagnostics every prerequisite holds. It compiles exactly when
   * nothing was reported, and for an admitted input that is exactly when the composition is valid.
   */
  method AnalyzeCompositionSemantics(i: Input, collector: Collector)
    returns (r: Result, ghost d: Derived, ghost reports: seq<Candidate>)
    requires collector.Valid() && collector.result.None? && Truthful(i, collector.stream)
    modifies collector
    ensures Derives(i, d) && Exactly(reports, AllReports(i, d))
    ensures collector.stream == old(collector.stream) + Normalized(reports) && Distinct(Normalized(reports))
    ensures forall d :: d in Normalized(reports) ==> Published(d)
    ensures !r.Thrown?
    ensures r.Compiled? <==> collector.stream == []
    ensures r.Compiled? ==> PlanFrom(i, d, r.plan)
    ensures r.Compiled? ==> i.profile.Some? && PlanMeans(i.declarations, i.profile.value, r.plan)
    ensures r.Rejected? ==> Finished(collector.canonicalize, collector.stream, r.diagnostics)
    ensures old(collector.stream) == [] && i.profile.Some? && Admitted(i, i.profile.value) ==>
      (r.Compiled? <==> ValidComposition(i.declarations, i.profile.value))
  {
    hide Derives, AllReports, Exactly, Finished, Admitted, ValidComposition, PlanOf, CensusOf, Normalize, PlanMeans,
         Published;
    var derived, all, thrown := RunStages(i);
    d, reports := derived, all;
    SentOnce(all, AllReports(i, derived));
    AllPublished(all);
    if i.profile.Some? && Admitted(i, i.profile.value) { ReportedIffInvalid(i, i.profile.value, derived); }
    ExactlyEmpty(all, AllReports(i, derived));
    if thrown { return Thrown, d, reports; }
    Collect(collector, all);
    var diagnostics := collector.Finish();
    FinishedEmpty(collector.canonicalize, collector.stream, diagnostics);
    if diagnostics != [] { return Rejected(diagnostics), d, reports; }
    PrerequisitesHold(i, derived);
    if i.hasErrors || !i.allDeclarationsAdmitted || all != [] || i.profile.None? || derived.selected.roots.None?
      || derived.analysis.None? || derived.analysis.value.dependencyOrder.None? {
      return Thrown, d, reports;
    }
    r := Compiled(PlanOf(i.profile.value, derived.bindings, derived.analysis.value.dependencyOrder.value));
    PlanIs(i, derived, r.plan);
  }

  /** Everything the stages send is a diagnostic of the published type. */
  lemma AllPublished(sent: seq<Candidate>)
    ensures forall d :: d in Normalized(sent) ==> Published(d)
  {
    hide Published, Normalize, Points;
    forall d | d in Normalized(sent) ensures Published(d) {
      var k :| 0 <= k < |sent| && Normalized(sent)[k] == d;
      NormalizedIsPublished(sent[k]);
    }
  }

  /** The stages never send two equal candidates. */
  lemma SentOnce(sent: seq<Candidate>, reports: set<Candidate>)
    requires Exactly(sent, reports)
    ensures Distinct(Normalized(sent))
  {
    hide Normalized;
    NormalizedDistinct(sent);
  }

  lemma FinishedEmpty(canonicalize: D.Canonicalize, stream: seq<D.Diagnostic>, out: seq<D.Diagnostic>)
    requires Finished(canonicalize, stream, out)
    ensures out == [] <==> stream == []
  {
    hide SortedBy, LeastPart;
    if |stream| <= RETAINED_LIMIT { MembersOfMultiset(out, stream); }
  }
}
