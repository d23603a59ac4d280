/**
 * From admitted declarations and a profile to a plan or the diagnostics (semantic-analysis.ts,
 * graph-diagnostics.ts).
 */
module SemanticAnalysis {
  import opened Sequences
  import opened Text
  import opened Composition
  import opened Candidates
  import opened DeclarationCensus
  import opened ProfileCensus
  import opened SelectedBindings
  import opened GraphResources
  import opened DiagnosticCollector
  import D = DiagnosticOrder
  import G = SelectedGraph

  const GRAPH_DEPTH: nat := 2048

  datatype Input = Input(declarations: seq<Declaration>, allDeclarationsAdmitted: bool, profile: Option<Profile>,
                         observations: Option<Observations>, hasErrors: bool)

  datatype Plan = Plan(profileId: Id, roots: seq<Id>, selections: seq<Selection>, bindings: seq<(Binding, Slot)>,
    dependencyOrder: seq<Id>)

  datatype Result = Compiled(plan: Plan) | Rejected(diagnostics: seq<D.Diagnostic>) | Thrown

  // ---------- the graph ----------

  /** The provider edges of the valid rows, row by row. */
  function EdgesOf(valid: seq<(Binding, Slot)>): seq<G.ProviderEdge> {
    if valid == [] then []
    else EdgesOf(valid[..|valid| - 1]) + RowEdges(valid[|valid| - 1].0.providers, valid[|valid| - 1].0.consumer)
  }

  function RowEdges(providers: seq<Id>, consumer: Id): seq<G.ProviderEdge> {
    seq(|providers|, k requires 0 <= k < |providers| => (providers[k], consumer))
  }

  lemma RowEdgesAre(providers: seq<Id>, consumer: Id, e: G.ProviderEdge)
    ensures e in RowEdges(providers, consumer) <==> e.1 == consumer && e.0 in providers
  {
    if e.1 == consumer && e.0 in providers {
      var k :| 0 <= k < |providers| && providers[k] == e.0;
      assert RowEdges(providers, consumer)[k] == e;
    }
  }

  lemma {:induction false} EdgesAre(valid: seq<(Binding, Slot)>, e: G.ProviderEdge)
    ensures e in EdgesOf(valid) <==> exists v :: v in valid && v.0.consumer == e.1 && e.0 in v.0.providers
  {
    if valid != [] {
      var front, last := valid[..|valid| - 1], valid[|valid| - 1];
      EdgesAre(front, e);
      RowEdgesAre(last.0.providers, last.0.consumer, e);
      assert valid == front + [last];
      if v :| v in valid && v.0.consumer == e.1 && e.0 in v.0.providers { assert v in front || v == last; }
    }
  }

  method BuildEdges(valid: seq<(Binding, Slot)>) returns (edges: seq<G.ProviderEdge>)
    ensures edges == EdgesOf(valid)
  {
    edges := [];
    for k := 0 to |valid|
      invariant edges == EdgesOf(valid[..k])
    {
      assert valid[..k + 1][..k] == valid[..k];
      var binding := valid[k].0;
      ghost var before := edges;
      assert binding.providers[..0] == [];
      for j := 0 to |binding.providers|
        invariant edges == before + RowEdges(binding.providers[..j], binding.consumer)
      {
        assert RowEdges(binding.providers[..j + 1], binding.consumer) ==
          RowEdges(binding.providers[..j], binding.consumer) + [(binding.providers[j], binding.consumer)];
        edges := edges + [(binding.providers[j], binding.consumer)];
      }
      assert binding.providers[..|binding.providers|] == binding.providers;
    }
    assert valid[..|valid|] == valid;
  }

  ghost function CycleCandidates(cycles: seq<seq<Id>>): set<Candidate> {
    set c | c in cycles :: Cycle(c)
  }

  ghost function UnreachedNodes(nodes: seq<Declared>, closure: seq<Id>): set<Candidate> {
    set n | n in nodes && n.implementationId !in closure :: Unreachable(n.moduleId, n.implementationId)
  }

  ghost function FailureReports(a: G.Analysis): set<Candidate> {
    (if a.residualDepth > GRAPH_DEPTH then {TooDeep} else {}) + CycleCandidates(a.cycles)
  }

  /**
   * Unreached selections are reported only when the roots resolve and every reached implementation has all its
   * rows.
   */
  ghost function GraphReports(s: Selected, b: Bindings, a: G.Analysis): set<Candidate> {
    FailureReports(a)
    + if s.nodes.Some? && s.roots.Some?
      && (forall id ::
        id in a.rootClosure ==> id in b.complete) then UnreachedNodes(s.nodes.value, a.rootClosure) else {}
  }

  method CollectGraphFailures(a: G.Analysis) returns (added: seq<Candidate>)
    requires Distinct(a.cycles)
    ensures Exactly(added, FailureReports(a))
  {
    added := if a.residualDepth > GRAPH_DEPTH then [TooDeep] else [];
    ghost var base := if a.residualDepth > GRAPH_DEPTH then {TooDeep} else {};
    assert base + CycleCandidates(a.cycles[..0]) == base;
    for k := 0 to |a.cycles|
      invariant Exactly(added, base + CycleCandidates(a.cycles[..k]))
    {
      var component := a.cycles[k];
      assert a.cycles[..k + 1] == a.cycles[..k] + [component] && component !in a.cycles[..k];
      ExactlyOne(added, base + CycleCandidates(a.cycles[..k]), Cycle(component));
      added := added + [Cycle(component)];
      CyclesMore(a.cycles[..k], component);
      assert base + CycleCandidates(a.cycles[..k + 1]) == base + CycleCandidates(a.cycles[..k]) + {Cycle(component)};
    }
    assert a.cycles[..|a.cycles|] == a.cycles;
  }

  lemma CyclesMore(cycles: seq<seq<Id>>, c: seq<Id>)
    ensures CycleCandidates(cycles + [c]) == CycleCandidates(cycles) + {Cycle(c)}
  {
    forall x ensures x in cycles + [c] <==> x in cycles || x == c {}
  }

  ghost predicate NodesDistinct(nodes: seq<Declared>) {
    forall i, j :: 0 <= i < j < |nodes| ==> nodes[i].implementationId != nodes[j].implementationId
  }

  method CollectUnreached(nodes: seq<Declared>, closure: seq<Id>) returns (added: seq<Candidate>)
    requires NodesDistinct(nodes)
    ensures Exactly(added, UnreachedNodes(nodes, closure))
  {
    var reached := set id | id in closure;
    added := [];
    for k := 0 to |nodes|
      invariant Exactly(added, UnreachedNodes(nodes[..k], closure))
    {
      var n := nodes[k];
      assert nodes[..k + 1] == nodes[..k] + [n];
      UnreachedMore(nodes, k, closure);
      if n.implementationId !in reached {
        ExactlyOne(added, UnreachedNodes(nodes[..k], closure), Unreachable(n.moduleId, n.implementationId));
        added := added + [Unreachable(n.moduleId, n.implementationId)];
      }
      assert UnreachedNodes(nodes[..k], closure) + {} == UnreachedNodes(nodes[..k], closure);
    }
    assert nodes[..|nodes|] == nodes;
  }

  lemma UnreachedMore(nodes: seq<Declared>, k: nat, closure: seq<Id>)
    requires k < |nodes| && NodesDistinct(nodes)
    ensures UnreachedNodes(nodes[..k + 1], closure) ==
            UnreachedNodes(nodes[..k], closure)
              + if nodes[k].implementationId in closure then {}
                else {Unreachable(nodes[k].moduleId, nodes[k].implementationId)}
    ensures Unreachable(nodes[k].moduleId, nodes[k].implementationId) !in UnreachedNodes(nodes[..k], closure)
  {
    assert nodes[..k + 1] == nodes[..k] + [nodes[k]];
    forall n ensures n in nodes[..k + 1] <==> n in nodes[..k] || n == nodes[k] {}
    forall n | n in nodes[..k] ensures n.implementationId != nodes[k].implementationId {
      var i :| 0 <= i < k && nodes[i] == n;
    }
  }

  // ---------- what an analysis has derived ----------

  function RootsOr(roots: Option<seq<Id>>): seq<Id> {
    if roots.Some? then roots.value else []
  }

  ghost predicate ContextOf(c: Census, s: Selected, x: Context) {
    x.census == c && forall i :: i in x.selected <==> i in s.ids
  }

  /** The graph is built from a fully resolved selection within the edge budget. */
  ghost predicate GraphBuilt(i: Input, s: Selected) {
    s.nodes.Some? && i.observations.Some? && i.observations.value.complete && !EdgesExceeded(i.observations.value)
  }

  datatype Derived = Derived(census: Census, selected: Selected, context: Context, bindings: Bindings,
    analysis: Option<G.Analysis>)

  ghost predicate Derives(i: Input, d: Derived) {
    && CensusOf(i.declarations, i.allDeclarationsAdmitted, d.census)
    && (i.profile.Some? ==>
          && SelectedOf(d.census, i.profile.value, d.selected)
          && ContextOf(d.census, d.selected, d.context)
          && BindingsOf(d.context, i.profile.value, d.bindings)
          && (d.analysis.Some? <==> GraphBuilt(i, d.selected))
          && (d.analysis.Some? ==>
            G.Correct(d.selected.ids, EdgesOf(d.bindings.valid), RootsOr(d.selected.roots), d.analysis.value)))
    && (i.profile.None? ==> d.analysis.None?)
  }

  ghost function AllReports(i: Input, d: Derived): set<Candidate> {
    CensusReports(i.declarations) + ResourceReports(d.census, i.observations)
    + (match i.profile
       case None => {}
       case Some(p) =>
         ProfileReports(d.census, p) + BindingReports(d.context, p, d.selected.ids)
         + if d.analysis.Some? then GraphReports(d.selected, d.bindings, d.analysis.value) else {})
  }

  // ---------- building and analysing the graph ----------

  /** The kernel cannot fail: identities are distinct, and edges and roots stay inside the selection. */
  lemma GraphAdmissible(c: Census, p: Profile, s: Selected, x: Context, b: Bindings)
    requires SelectedOf(c, p, s) && ContextOf(c, s, x) && BindingsOf(x, p, b)
    ensures Distinct(s.ids) && Sort(TextLe, s.ids) == s.ids
    ensures forall e :: e in EdgesOf(b.valid) ==> e.0 in s.ids && e.1 in s.ids
    ensures forall r :: r in RootsOr(s.roots) ==> r in s.ids
  {
    hide EdgesOf, Sort, SortedBy, RowsFill, FrontierComplete, RootsResolved;
    SortSorted(s.ids);
    forall e | e in EdgesOf(b.valid) ensures e.0 in s.ids && e.1 in s.ids {
      EdgesAre(b.valid, e);
      var v :| v in b.valid && v.0.consumer == e.1 && e.0 in v.0.providers;
      ValidRowSelected(x, p, v, e.0);
    }
    if s.roots.Some? {
      forall r | r in s.roots.value ensures r in s.ids { assert IsSelected(p, r); }
    }
  }

  lemma SortSorted(ids: seq<Id>)
    requires SortedBy(TextLe, ids)
    ensures Sort(TextLe, ids) == ids
  {
    TextOrder();
    SortCorrect(TextLe, ids);
    SortedUnique(TextLe, Sort(TextLe, ids), ids);
  }

  lemma ValidRowSelected(x: Context, p: Profile, v: (Binding, Slot), provider: Id)
    requires IsValidRow(x, p, v) && provider in v.0.providers
    ensures v.0.consumer in x.selected && provider in x.selected
    ensures RecordValid(x, v.0, v.1) && At(RowsOfConsumer(p, v.0.consumer), v.0.slotId) == [v.0]
  {
    var rows := RowsOfConsumer(p, v.0.consumer);
    MatchingMember(rows, BoundSlot, v.0.slotId, v.0);
    hide Matching;
    assert ProviderValid(x, v.0, v.1, provider);
  }

  lemma NodesAre(ds: seq<Declaration>, all: bool, c: Census, p: Profile, s: Selected)
    requires CensusOf(ds, all, c) && SelectedOf(c, p, s) && s.nodes.Some?
    ensures NodesDistinct(s.nodes.value)
    ensures |s.nodes.value| == |s.ids| && forall i :: 0 <= i < |s.ids| ==> s.nodes.value[i].implementationId == s.ids[i]
  {
    hide Indexed, RootsResolved;
    forall i | 0 <= i < |s.ids| ensures s.nodes.value[i].implementationId == s.ids[i] {
      assert Look(c.implementations, s.ids[i]) == DeclaredFor(ds, s.ids[i]);
      FindOneMeans(ds, ImplementationOf, s.ids[i]);
    }
  }

  lemma CyclesDistinct(nodes: seq<Id>, edges: seq<G.ProviderEdge>, cycles: seq<seq<Id>>)
    requires G.CycleReports(nodes, edges, cycles)
    ensures Distinct(cycles)
  {
    hide G.CycleReport, G.InCycle, G.Feeds, TextLess;
    forall i, j | 0 <= i < j < |cycles| ensures cycles[i] != cycles[j] { TextTrichotomy(cycles[i][0], cycles[j][0]); }
  }

  method BuildGraph(i: Input, c: Census, p: Profile, s: Selected, x: Context, b: Bindings, counted: Option<nat>,
                    exceeded: bool)
    returns (analysis: Option<G.Analysis>, added: seq<Candidate>, thrown: bool)
    requires CensusOf(i.declarations, i.allDeclarationsAdmitted, c)
    requires SelectedOf(c, p, s)
    requires ContextOf(c, s, x)
    requires BindingsOf(x, p, b)
    requires counted.Some? <==> i.observations.Some? && i.observations.value.complete
    requires exceeded <==> i.observations.Some? && EdgesExceeded(i.observations.value)
    ensures !thrown
    ensures analysis.Some? <==> GraphBuilt(i, s)
    ensures analysis.Some? ==> G.Correct(s.ids, EdgesOf(b.valid), RootsOr(s.roots), analysis.value)
    ensures Exactly(added, if analysis.Some? then GraphReports(s, b, analysis.value) else {})
  {
    hide CensusOf, SelectedOf, BindingsOf, EdgesOf, EdgesExceeded, ContextOf, FailureReports, UnreachedNodes,
         NodesDistinct, Sort, G.Counted, G.CycleReports, G.LeastDependencyOrder, G.LongestWalk, G.RootClosure;
    if s.nodes.None? || counted.None? || exceeded { return None, [], false; }
    var edges := BuildEdges(b.valid);
    GraphAdmissible(c, p, s, x, b);
    var outcome := G.AnalyzeSelectedGraph(s.ids, edges, RootsOr(s.roots));
    if outcome.Failed? { return None, [], true; }
    var a := outcome.analysis;
    CyclesDistinct(s.ids, edges, a.cycles);
    var failures := CollectGraphFailures(a);
    analysis, added, thrown := Some(a), failures, false;
    if s.roots.None? || !(forall id :: id in a.rootClosure ==> id in b.complete) {
      assert FailureReports(a) + {} == FailureReports(a);
      return;
    }
    NodesAre(i.declarations, i.allDeclarationsAdmitted, c, p, s);
    var unreached := CollectUnreached(s.nodes.value, a.rootClosure);
    FailuresApart(a, s.nodes.value);
    ExactlyBoth(failures, FailureReports(a), unreached, UnreachedNodes(s.nodes.value, a.rootClosure));
    added := failures + unreached;
  }

  lemma FailuresApart(a: G.Analysis, nodes: seq<Declared>)
    ensures FailureReports(a) !! UnreachedNodes(nodes, a.rootClosure)
  {
  }

  // ---------- the whole analysis ----------

  function Normalized(cs: seq<Candidate>): (r: seq<D.Diagnostic>)
    ensures |r| == |cs| && forall k :: 0 <= k < |cs| ==> r[k] == Normalize(cs[k])
  {
    seq(|cs|, k requires 0 <= k < |cs| => Normalize(cs[k]))
  }

  /** Candidates that differ are still different when they are sent. */
  lemma NormalizedDistinct(cs: seq<Candidate>)
    requires Distinct(cs)
    ensures Distinct(Normalized(cs))
  {
    hide Normalize, Denormalize;
    forall i, j | 0 <= i < j < |cs| ensures Normalized(cs)[i] != Normalized(cs)[j] {
      NormalizeRoundTrip(cs[i]);
      NormalizeRoundTrip(cs[j]);
    }
  }

  method Collect(collector: Collector, cs: seq<Candidate>)
    requires collector.Valid() && collector.result.None?
    modifies collector
    ensures collector.Valid() && collector.result.None?
    ensures collector.stream == old(collector.stream) + Normalized(cs)
  {
    hide *;
    for k := 0 to |cs|
      invariant collector.Valid() && collector.result.None?
      invariant collector.stream == old(collector.stream) + Normalized(cs[..k])
    {
      var accepted := collector.AddUnique(Normalize(cs[k]));
      assert Normalized(cs[..k + 1]) == Normalized(cs[..k]) + [Normalize(cs[k])];
    }
    assert cs[..|cs|] == cs;
  }

  lemma NormalizedJoin(a: seq<Candidate>, b: seq<Candidate>)
    ensures Normalized(a + b) == Normalized(a) + Normalized(b)
  {
  }

  /**
   * Admission's part of the bargain: whatever it did not admit it has reported, an admitted profile
   * comes with a complete observation of its rows, and rows are observed once.
   */
  ghost predicate Truthful(i: Input, admission: seq<D.Diagnostic>) {
    && (i.hasErrors || !i.allDeclarationsAdmitted || i.profile.None? ==> admission != [])
    && (i.profile.Some? ==> i.observations.Some? && i.observations.value.complete)
    && (i.observations.Some? ==> DistinctOrdinals(i.observations.value.rows))
  }

  function PlanOf(p: Profile, b: Bindings, order: seq<Id>): Plan {
    Plan(p.profileId, Sort(TextLe, p.roots), Sort(SelectionLe, p.selections), b.valid, order)
  }

  predicate SelectionLe(a: Selection, b: Selection) {
    TextLe(a.moduleId, b.moduleId)
  }

  /** A plan comes from a derivation without reports; the least dependency order is the graph's. */
  ghost predicate PlanFrom(i: Input, d: Derived, plan: Plan) {
    && i.profile.Some? && d.analysis.Some? && d.analysis.value.dependencyOrder.Some?
    && plan == PlanOf(i.profile.value, d.bindings, d.analysis.value.dependencyOrder.value)
  }

  /** The stage that reports a candidate. */
  ghost function StageOf(r: Candidate): nat {
    if r.DuplicateImplementation? || r.DuplicateCapability? || r.DuplicateSlot? then 0
    else if r.TooManyProviders? || r.TooManyEdges? then 1
    else if OfDeclarations(r) then 2
    else if r.TooDeep? || r.Cycle? || r.Unreachable? then 4
    else 3
  }

  ghost predicate FromStage(reports: set<Candidate>, stage: nat) {
    forall r :: r in reports ==> StageOf(r) == stage
  }

  lemma DeclarationStage(ds: seq<Declaration>)
    ensures FromStage(CensusReports(ds), 0)
  {
    forall id, group: seq<Declaration>
      ensures forall r ::
        r in GroupReports(id, group) ==> r.DuplicateImplementation? || r.DuplicateCapability? || r.DuplicateSlot? {
      GroupReportsNamed(id, group);
    }
    hide GroupReports;
  }

  lemma ProfileStage(c: Census, p: Profile)
    ensures FromStage(ProfileReports(c, p), 2)
  {
    hide Matching;
  }

  lemma BindingStage(x: Context, p: Profile, ids: seq<Id>)
    ensures FromStage(BindingReports(x, p, ids), 3)
  {
    SuppliedKinds(x, p);
    MissingMoreKinds(x, p, ids);
    hide SuppliedReports, MissingReports;
  }

  lemma ResourceStage(c: Census, o: Option<Observations>)
    ensures FromStage(ResourceReports(c, o), 1)
  {
    hide Overfull, EdgesExceeded;
  }

  lemma GraphStage(d: Derived)
    ensures FromStage(GraphPart(d), 4)
  {
  }

  /** Reports of an earlier and a later stage. */
  lemma JoinLater(a: seq<Candidate>, before: set<Candidate>, b: seq<Candidate>, more: set<Candidate>, stage: nat)
    requires Exactly(a, before) && Exactly(b, more) && FromStage(more, stage)
      && forall r :: r in before ==> StageOf(r) < stage
    ensures Exactly(a + b, before + more) && forall r :: r in before + more ==> StageOf(r) <= stage
  {
    hide StageOf, Exactly;
    ExactlyBoth(a, before, b, more);
  }

  ghost function GraphPart(d: Derived): set<Candidate> {
    if d.analysis.Some? then GraphReports(d.selected, d.bindings, d.analysis.value) else {}
  }

  /** The stages never report the same candidate. */
  lemma JoinStages(i: Input, d: Derived, p: Profile, census: seq<Candidate>, resources: seq<Candidate>,
                   profile: seq<Candidate>, rows: seq<Candidate>, graph: seq<Candidate>)
    requires i.profile == Some(p)
    requires Exactly(census, CensusReports(i.declarations))
    requires Exactly(resources, ResourceReports(d.census, i.observations))
    requires Exactly(profile, ProfileReports(d.census, p))
    requires Exactly(rows, BindingReports(d.context, p, d.selected.ids))
    requires Exactly(graph, GraphPart(d))
    ensures Exactly(census + resources + profile + rows + graph, AllReports(i, d))
  {
    DeclarationStage(i.declarations);
    ResourceStage(d.census, i.observations);
    ProfileStage(d.census, p);
    BindingStage(d.context, p, d.selected.ids);
    GraphStage(d);
    hide CensusReports, ResourceReports, ProfileReports, BindingReports, Exactly, StageOf;
    var s0, s1, s2 :=
      CensusReports(i.declarations), ResourceReports(d.census, i.observations), ProfileReports(d.census, p);
    var s3 := BindingReports(d.context, p, d.selected.ids);
    JoinLater(census, s0, resources, s1, 1);
    JoinLater(census + resources, s0 + s1, profile, s2, 2);
    JoinLater(census + resources + profile, s0 + s1 + s2, rows, s3, 3);
    JoinLater(census + resources + profile + rows, s0 + s1 + s2 + s3, graph, GraphPart(d), 4);
    AllParts(i, d, p);
  }

  lemma AllParts(i: Input, d: Derived, p: Profile)
    requires i.profile == Some(p)
    ensures AllReports(i, d) ==
      CensusReports(i.declarations) + ResourceReports(d.census, i.observations) + ProfileReports(d.census, p)
                                + BindingReports(d.context, p, d.selected.ids) + GraphPart(d)
  {
    hide CensusReports, ResourceReports, ProfileReports, BindingReports, GraphReports;
  }

  /** The stages of an analysis, and everything they report, in the order they report it. */
  method RunStages(i: Input) returns (d: Derived, reports: seq<Candidate>, thrown: bool)
    requires i.observations.Some? ==> DistinctOrdinals(i.observations.value.rows)
    ensures !thrown && Derives(i, d) && Exactly(reports, AllReports(i, d))
  {
    hide CensusOf, CensusReports, ResourceReports, SelectedOf, ProfileReports, BindingsOf, BindingReports,
         GraphReports, G.Correct, EdgesExceeded, Exactly, EdgesOf, DistinctOrdinals, Occurrences;
    var census, first := CreateDeclarationCensus(i.declarations, i.allDeclarationsAdmitted);
    var counted, exceeded, second := CollectGraphResourceLimits(i.observations, census);
    if i.profile.None? {
      d := Derived(census, Selected([], None, None), Context(census, {}), Bindings([], {}), None);
      NoProfile(i, d, first, second);
      return d, first + second, false;
    }
    var p := i.profile.value;
    var selected, third := CreateProfileCensus(census, p);
    var context := Context(census, set id | id in selected.ids);
    SelectedDistinct(census, p, selected);
    var bindings, fourth := ValidateSelectedBindings(context, p, selected.ids);
    var analysis, fifth, failed := BuildGraph(i, census, p, selected, context, bindings, counted, exceeded);
    d := Derived(census, selected, context, bindings, analysis);
    reports, thrown := first + second + third + fourth + fifth, failed;
    JoinStages(i, d, p, first, second, third, fourth, fifth);
  }

  lemma NoProfile(i: Input, d: Derived, census: seq<Candidate>, resources: seq<Candidate>)
    requires i.profile.None? && d.analysis.None? && CensusOf(i.declarations, i.allDeclarationsAdmitted, d.census)
    requires Exactly(census, CensusReports(i.declarations))
    requires Exactly(resources, ResourceReports(d.census, i.observations))
    ensures Derives(i, d) && Exactly(census + resources, AllReports(i, d))
  {
    DeclarationStage(i.declarations);
    ResourceStage(d.census, i.observations);
    hide CensusReports, ResourceReports, CensusOf, Exactly;
    JoinLater(census, CensusReports(i.declarations), resources, ResourceReports(d.census, i.observations), 1);
    assert AllReports(i, d) == CensusReports(i.declarations) + ResourceReports(d.census, i.observations);
  }

  lemma SelectedDistinct(c: Census, p: Profile, s: Selected)
    requires SelectedOf(c, p, s)
    ensures Distinct(s.ids)
  {
  }
}
