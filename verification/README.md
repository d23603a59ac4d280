# Verification of the composition compiler and its three runtimes

The repository compiles module declarations and a profile into a composition plan, and runs plans. This project
models the parts of it that decide something and proves what they promise:

- **The graph kernel** (`GraphPaths`, `GraphComponents`, `ReadyQueue`, `ResidualOrder`, `SelectedGraph`): strongly
  connected components, the least dependency order, the longest chain and the closure of the roots.
- **The semantic compiler** (`DeclarationCensus`, `ProfileCensus`, `SelectedBindings`, `GraphResources`,
  `SemanticAnalysis`, `CompiledPlans`, `SemanticCompiler`): five stages that report faults. `CompositionValidity`
  states in one predicate what a valid composition is and proves that exactly the others are rejected;
  `CompositionOrder` proves that the order of any list does not matter.
- **The diagnostics** (`DiagnosticOrder`, `PublishedDiagnostics`, `DiagnosticCollector`): a comparator with many
  levels and a bounded heap that agree with sorting everything.
- **Raw admission** (`JsonTree`, `RawDocument`, `RawView`, `RawViews`, `RawInteger`, `DocumentShape`,
  `DuplicateReplay`, `NumericAdmission`, `RawCharges`, `RawAdmission`): a pushdown scan of RFC 8259 texts under
  budgets, a lazy view, a replay of repeated names over a prefix cut off anywhere, and exact decimal integers. A JSON
  text is a tree with its spelling; unfinished texts are trees with open containers.
- **Assembly** (`AssemblyProgram`, `AssemblyRun`): plans become programs, and programs run under arbitrary factories.
- **Cleanup scopes** (`ScopeState` to `ScopeGuarantees`, `ScopeOrder`, `ScopeClosing`, `ScopeLiveness`,
  `ScopeCompaction`, `LiveStack`): a tree of scopes as a step system, with theorems about every run.
- **The observable store** (`CommitHistory`, `StoreEngine`, `LoadRegistration`, `DeliveryQueue`, `LoadSubscription`,
  `Observation`): indexes that stand in for the history of commits, coalesced deliveries, one loader at a time, and a
  bound on causal chains. `CommitHistory` states the rules of a world of stores; `Engine.Set` and `Engine.FlushNext`
  are proved to follow them. `LoadSubscription` ties a lane to its store, and `Observation` puts all stores of a
  process on their one task queue.

Loops and objects of the source are methods and classes here, each proved against a specification; what the source
promises is then proved of the specification. `Sequences`, `Text`, `Heaps`, `Decimals`, `Paths`, `JsonLayout`,
`ReplayReading`, `ReplayGroups`, `Candidates` and `Composition` hold the vocabulary and helpers.

I/O, clocks, promises and platform calls are parameters: an outcome, a moment, a token, a stored context.

## Model

| member | source | states |
|---|---|---|
| `GraphComponents.Components` | packages/core/src/features/composition-semantics/graph-components.ts:15-68 | for any graph given with its transpose, the result lists exactly the mutual-reachability classes, each in increasing order, classes ordered by least member; every edge is visited once in each pass and no more than n frames are ever held |
| `GraphComponents.FirstPass` | packages/core/src/features/composition-semantics/graph-components.ts:18-40 | the finishing order of the depth-first search: every vertex once, and each vertex closes a segment that it reaches and that nothing finished before the segment points into; every edge is visited once |
| `GraphComponents.DecompositionUnique` | packages/core/src/features/composition-semantics/graph-components.ts:15-68 | two lists that both decompose one graph are equal, so the result does not depend on the order of the search |
| `ReadyQueues.ReadyQueue.Push` | packages/core/src/features/composition-semantics/ready-queue.ts:15-26 | keeps the heap, adds exactly one element, and raises the peak to the size reached |
| `ReadyQueues.ReadyQueue.Take` | packages/core/src/features/composition-semantics/ready-queue.ts:28-44 | returns a least element and removes exactly that one; the hole-based walk leaves a heap |
| `ResidualOrder.PrepareResidual` | packages/core/src/features/composition-semantics/selected-graph.ts:76-85 | indegrees count the residual providers, exactly the sources are queued, and every edge into a residual vertex is visited once |
| `ResidualOrder.VisitConsumers` | packages/core/src/features/composition-semantics/selected-graph.ts:92-98 | accounts for every consumer of the vertex just taken: indegrees, depths and the queue are again what they should be, after one visit of each of its edges |
| `ResidualOrder.AnalyzeResidual` | packages/core/src/features/composition-semantics/selected-graph.ts:69-102 | the loop empties the graph off the cycles, so its internal error is dead; the order is topological and always took the least ready vertex, the depth is the longest chain cut at 2049, each residual edge end is visited once, and the queue never outgrows the graph |
| `ResidualOrder.GreedyIsLeast` | packages/core/src/features/composition-semantics/selected-graph.ts:88-99 | a topological order that always takes the least ready vertex is lexicographically least among all topological orders |
| `SelectedGraph.BuildAdjacency` | packages/core/src/features/composition-semantics/selected-graph.ts:39-54 | fails exactly on an edge outside the selection; otherwise outgoing and incoming lists are simple, transposes of each other, and represent the edges without repetitions |
| `SelectedGraph.FindCycles` | packages/core/src/features/composition-semantics/selected-graph.ts:56-67 | flags exactly the vertices on cycles, self-loops included, and reports each cyclic class once in order |
| `SelectedGraph.FindRootClosure` | packages/core/src/features/composition-semantics/selected-graph.ts:104-127 | fails exactly on a root outside the selection; otherwise lists in order exactly what feeds a root, after visiting each edge into a reached vertex once |
| `SelectedGraph.AnalyzeSelectedGraph` | packages/core/src/features/composition-semantics/selected-graph.ts:137-161 | over identities: duplicate-node and unresolved-identity failures exactly when they should be; otherwise all cycles in order, an order only without cycles and then the lexicographically least dependency order, the longest acyclic walk cut at 2049, the root closure, and what the edge-visit, frame and peak counts mean |
| `SelectedGraph.LeastDependencyOrderUnique` | packages/core/src/features/composition-semantics/selected-graph.ts:88-99 | there is only one least dependency order |
| `DiagnosticOrder.CompareDiagnostics` | packages/core/src/features/diagnostics/order.ts:97-113 | the loops of the comparator compute the published order, both ways round: earlier phases first, then earlier codes of the published list, then the first coordinate field that differs, an absent one first, then the first path segment that differs, fields before indexes, then the component of a cycle or the canonical bytes, a proper prefix always first |
| `DiagnosticOrder.CompareMeans` | packages/core/src/features/diagnostics/order.ts:4-113 | the lexicographic comparison of the keys is that order, stated of the diagnostics themselves |
| `Text.TextLessMeans` | packages/core/src/features/diagnostics/order.ts:50-52 | one text is less than another when it is a proper prefix of it or has the smaller code unit at the first place where they differ |
| `DiagnosticOrder.CompareOrdering` | packages/core/src/features/diagnostics/order.ts:54-113 | the comparator is antisymmetric and transitive, zero exactly on equal keys, and with an injective canonicalizer zero only on equal diagnostics |
| `DiagnosticCollector.Collector.AddUnique` | packages/core/src/features/diagnostics/collector.ts:42-70 | a candidate is refused exactly after finishing; otherwise it joins the stream and the heap still holds 256 least of everything ever added |
| `DiagnosticCollector.Collector.Finish` | packages/core/src/features/diagnostics/collector.ts:71-84 | returns the whole stream in order when it has at most 256 entries, else 255 least ones in order and one truncation record counting min(n - 255, 262144); a second call returns the same |
| `DiagnosticCollector.FinishedInOrder` | packages/core/src/features/diagnostics/collector.ts:71-84 | in what is returned no diagnostic precedes the one before it, and none that was left out precedes one that was kept |
| `DiagnosticCollector.FinishedUnique` | packages/core/src/features/diagnostics/collector.ts:31-89 | the outcome depends only on the multiset of candidates, not on their arrival order |
| `RawInteger.ScanCoefficient` | packages/core/src/features/input-admission/raw-integer.ts:20-42 | one pass finds the first significant digit, the number of significant digits, the trailing zeros and the fraction length |
| `RawInteger.ReadExponent` | packages/core/src/features/input-admission/raw-integer.ts:44-55 | the exponent, clamped beyond the limit |
| `RawInteger.ExceedsSafeInteger` | packages/core/src/features/input-admission/raw-integer.ts:64-74 | a sixteen-digit value is compared with 2^53 - 1 exactly, without computing it |
| `RawInteger.MaterializeInteger` | packages/core/src/features/input-admission/raw-integer.ts:76-86 | the value is computed exactly, and the value of every prefix of the digits that the loop passes through is within 2^53 - 1 |
| `RawInteger.AdmitRawInteger` | packages/core/src/features/input-admission/raw-integer.ts:93-127 | every RFC 8259 number spelling gets the verdict of exact decimal arithmetic; clamping the exponent never changes it |
| `JsonTree.SpellInjective` | packages/core/src/features/input-admission/raw-document.ts:112-196 | two trees, finished or cut off anywhere, that spell the same tokens are equal: the grammar is unambiguous |
| `JsonTree.ReadComplete` | packages/core/src/features/input-admission/raw-document.ts:112-196 | whenever one more token can continue a text, the reader accepts it and arrives at that text |
| `DuplicateNames.NoDuplicates` | packages/core/src/features/input-admission/raw-document.ts:112-137 | nothing is reported of a finished document exactly when no object at any depth repeats a name |
| `RawDocument.ScanState.HandleObjectFrame` | packages/core/src/features/input-admission/raw-document.ts:112-137 | one token in an object frame moves the frame as the grammar moves the text, and reports a repeated name exactly when there is one |
| `RawDocument.ScanState.HandleArrayFrame` | packages/core/src/features/input-admission/raw-document.ts:139-152 | one token in an array frame moves the frame as the grammar moves the text |
| `RawDocument.ScanState.ChargeValue` | packages/core/src/features/input-admission/raw-document.ts:163-177 | a value is charged exactly when it fits both budgets and the depth limit, and the path of a container that is too deep is the path it would have had |
| `RawDocument.ScanState.CommitValue` | packages/core/src/features/input-admission/raw-document.ts:179-196 | after a value starts, the frame stack is again that of the text read so far |
| `RawDocument.ScanRawDocument` | packages/core/src/features/input-admission/raw-document.ts:203-249 | decoded exactly when the tokens are one JSON text without repeated names, at most 32 deep and within both budgets; the counts are those of the tree, the reported paths are all duplicates of the committed prefix, and invalid JSON is never claimed of a text |
| `RawView.ValueEnd` | packages/core/src/features/input-admission/raw-document.ts:256-274 | skipping one value ends right after its last token |
| `RawView.View.constructor` | packages/core/src/features/input-admission/raw-document.ts:387-389 | the root of a new view stands for the whole tree |
| `RawView.View.RecordOf` | packages/core/src/features/input-admission/raw-document.ts:305-331 | the member index of a record, built once: its keys in order and one handle for each member value; handles given out before keep their values |
| `RawView.View.ArrayOf` | packages/core/src/features/input-admission/raw-document.ts:333-355 | the length of an array, counted once, and an empty cursor |
| `RawView.View.Item` | packages/core/src/features/input-admission/raw-document.ts:357-378 | for any sequence of indexes, forward, backward or repeated, the handle stands for that element of the tree; undefined exactly outside the array |
| `RawView.View.Own` | packages/core/src/features/input-admission/raw-document.ts:396-399 | the member of that name, absent exactly when the tree has none |
| `RawView.View.Keys` | packages/core/src/features/input-admission/raw-document.ts:395 | the names in document order |
| `RawView.View.Length` | packages/core/src/features/input-admission/raw-document.ts:400 | the number of elements |
| `RawView.View.ReadKind` | packages/core/src/features/input-admission/raw-document.ts:394 | the kind of the value a handle stands for |
| `RawView.View.Text` | packages/core/src/features/input-admission/raw-document.ts:380-385 | the decoded string |
| `RawView.View.Integer` | packages/core/src/features/input-admission/raw-document.ts:403-406 | the exact-integer verdict of the number |
| `RawAdmission.ScanRawEntry` | packages/core/src/features/input-admission/raw-admission.ts:46-66 | a scan whose outcome, counters, reported depth and duplicates all belong to one and the same committed prefix: exactly the projections of its duplicates, each once; the budget left is what was given less what it used |
| `RawAdmission.ScanCaptured` | packages/core/src/features/input-admission/raw-admission.ts:68-81 | each document is scanned against what those before it left; scanning stops, at the last scan, exactly when all documents together ask for more values or string bytes than the batch may have, and otherwise the scans have paid for all of them |
| `RawCharges.PartIn` | packages/core/src/features/input-admission/raw-document.ts:163-196 | what a document asks of a budget: the longest beginning of it that some text continues, cut where it first nests too deep |
| `RawCharges.ScanCharges` | packages/core/src/features/input-admission/raw-document.ts:163-249 | under any budget, a scan is refused for the budget exactly when that part costs more than the budget, and otherwise counts exactly its values and bytes |
| `RawCharges.TextPart` | packages/core/src/features/input-admission/raw-document.ts:163-249 | for a whole text of allowed depth that part is the text |
| `RawViews.ArrayLength` | packages/core/src/features/input-admission/raw-admission.ts:17-22 | through the view: how many items the array member of that name has in the tree, none where there is no such array |
| `RawViews.HasVersionOne` | packages/core/src/features/input-admission/raw-admission.ts:24-31 | whether the tree has a member schemaVersion that is exactly one |
| `RawViews.CreateRawViews` | packages/core/src/features/input-admission/raw-admission.ts:83-98 | exactly the decoded documents get a view, each its own; the saturating totals answer for the true totals |
| `RawViews.OpenRawBatch` | packages/core/src/features/input-admission/raw-admission.ts:131-147 | the first half of admitting a batch: blocked exactly when the documents ask for too much, and then no views; otherwise the decoded trees are within both limits in total, one view per decoded declaration, withheld exactly when the true total of capabilities or slots is over its limit |
| `DocumentShape.ProjectShapes` | packages/core/src/features/input-admission/document-shape.ts:86-101 | the shapes one path segment further, all cardinality variants together |
| `DocumentShape.SchemaSafeLocalPath` | packages/core/src/features/input-admission/document-shape.ts:110-123 | the longest representable prefix of a path, which is what a diagnostic may name |
| `DocumentShape.LocationIffSelfOwned` | packages/core/src/features/input-admission/document-shape.ts:110-123 | a path is a reportable location exactly when it is its own projection |
| `DocumentShape.AddressFits` | packages/core/src/features/input-admission/document-path.ts:14-25 | the address of a finding is the locator of its document and the longest nameable part of its path, cut at 32 segments in all |
| `DocumentShape.RootAllows` | packages/core/src/features/input-admission/document-shape.ts:71-84 | exactly the names of a declaration, and of a profile, can follow at the root |
| `DocumentShape.ItemsAllow` | packages/core/src/features/input-admission/document-shape.ts:65-70 | exactly the names of a provided capability, a slot, a selection and a binding can follow inside their lists, for every admitted index |
| `DocumentShape.PartsAllow` | packages/core/src/features/input-admission/document-shape.ts:52-74 | so it is for the owner, for both compatibilities, and for the cardinality, where all its forms contribute |
| `DocumentShape.OwnerBelow` | packages/core/src/features/input-admission/document-shape.ts:110-123 | projections of what lies below a location are the location itself or lie below it, by the next segment |
| `ReplayReading.Capture` | packages/core/src/features/input-admission/raw-duplicate-replay.ts:82-96 | skips one value of the committed prefix, finished or cut off |
| `ReplayReading.Fold` | packages/core/src/features/input-admission/raw-duplicate-replay.ts:98-124 | tells whether anything inside one value, finished or cut off, is a duplicate |
| `DuplicateReplay.ReplayState.CollectRecord` | packages/core/src/features/input-admission/raw-duplicate-replay.ts:126-154 | reads one object of a group: its members join the groups of their names, its own repeats are noted |
| `DuplicateReplay.ReplayState.FoldTerminalGroup` | packages/core/src/features/input-admission/raw-duplicate-replay.ts:156-165 | below the last reportable segment a group reports exactly when something in it repeats; its spans and cursors are released |
| `DuplicateReplay.ReplayState.VisitArrays` | packages/core/src/features/input-admission/raw-duplicate-replay.ts:192-213 | arrays of a group are read in step, element by element; nothing is missed, nothing is visited twice, every cursor is released |
| `DuplicateReplay.ReplayState.Visit` | packages/core/src/features/input-admission/raw-duplicate-replay.ts:215-227 | emits exactly the projections of the duplicates below the group, each once, and releases what it held |
| `DuplicateReplay.VisitRawDuplicatePaths` | packages/core/src/features/input-admission/raw-duplicate-replay.ts:237-255 | for every committed prefix, finished or cut off inside any value: the emitted paths are exactly the projections of all duplicate paths of the first scan, each once; live spans and cursors end at zero, so the final guard never throws |
| `NumericAdmission.StoppedMask` | packages/core/src/features/input-admission/raw-numeric-admission.ts:42-78 | the iterative walk collects the failures of a whole subtree |
| `NumericAdmission.OwnerMask` | packages/core/src/features/input-admission/raw-numeric-admission.ts:81-124 | the failures owned by a location, and in the visiting pass exactly the reports strictly below it |
| `NumericAdmission.VisitRawNumericFailures` | packages/core/src/features/input-admission/raw-numeric-admission.ts:184-209 | emits each owner and reason once, exactly those that own a number with that verdict: invalid-type for a number that is no integer, invalid-format for an integer that is not exact, nothing for an admitted one |
| `NumericAdmission.NumericFailureMask` | packages/core/src/features/input-admission/raw-numeric-admission.ts:142-165 | each of the two bits is set exactly when the document has a number with that verdict which this path owns |
| `DeclarationCensus.CreateDeclarationCensus` | packages/core/src/features/composition-semantics/declaration-census.ts:42-101 | the census lists unique declarations and exactly the duplicate implementations, capabilities and slots are reported, each once |
| `ProfileCensus.CreateProfileCensus` | packages/core/src/features/composition-semantics/profile-census.ts:111-126 | selections and roots resolve exactly when they should, and exactly the unresolved, repeated and mismatched ones are reported, each once |
| `SelectedBindings.ValidateRecord` | packages/core/src/features/composition-semantics/binding-record.ts:15-63 | one row is valid exactly when its consumer, slot, tag, cardinality and providers fit, and exactly its faults are reported |
| `SelectedBindings.ValidateRecords` | packages/core/src/features/composition-semantics/binding-record.ts:66-98 | exactly the faults and repeats of the rows for one slot are reported, and they are valid exactly when there is one row and it is valid |
| `SelectedBindings.ValidateSelectedBindings` | packages/core/src/features/composition-semantics/selected-bindings.ts:99-123 | the valid rows in order, the consumers whose frontier is complete, and exactly the faults of supplied and missing rows, each once |
| `GraphResources.CollectGraphResourceLimits` | packages/core/src/features/composition-semantics/graph-resources.ts:10-39 | the saturating count is the true number of provider occurrences cut just above the limit, and the limit is reported exactly when exceeded |
| `SemanticAnalysis.CollectGraphFailures` | packages/core/src/features/composition-semantics/graph-diagnostics.ts:7-19 | exactly the cycles and the excessive depth are reported |
| `SemanticAnalysis.BuildGraph` | packages/core/src/features/composition-semantics/semantic-analysis.ts:19-37 | the graph kernel runs exactly when nodes and counts are known, never fails, and reports its failures and the unreachable selections, each once |
| `SemanticAnalysis.RunStages` | packages/core/src/features/composition-semantics/semantic-analysis.ts:69-78 | no stage throws, and the candidates are exactly the reports of all stages, none twice |
| `SemanticCompiler.AnalyzeCompositionSemantics` | packages/core/src/features/composition-semantics/semantic-analysis.ts:69-82 | never throws: without diagnostics every prerequisite holds; adds exactly the reports of the stages, each once, as diagnostics of the published type; compiles exactly when nothing was reported, and for admitted input exactly valid compositions; a compiled plan has the profile, its roots and selections without loss and in order, exactly the rows of selected consumers with their slots, and the least dependency order |
| `CompiledPlans.PlanIs` | packages/core/src/features/composition-semantics/semantic-analysis.ts:56-67 | what the plan of a composition that nothing was reported on says of its profile: the same roots in increasing order, the same selections by increasing modules, every row of a selected consumer once with the slot its consumer declares, by consumer and slot, and the least dependency order of the selected implementations |
| `PublishedDiagnostics.NormalizedIsPublished` | packages/core/src/features/authoring/diagnostic-types.ts:3-251 | every candidate is normalized to a diagnostic of the published type: the phase, the coordinate fields and the details that its code or limit calls for, and the path of the part it is about |
| `SemanticCompiler.SentOnce` | packages/core/src/features/composition-semantics/semantic-analysis.ts:69-82 | the normalized candidates of one analysis are pairwise different |
| `SemanticAnalysis.NormalizedDistinct` | packages/core/src/features/diagnostics/collector.ts:14-28 | candidates that differ are still different diagnostics when they reach the collector |
| `Candidates.NormalizeRoundTrip` | packages/core/src/features/diagnostics/collector.ts:14-28 | the candidate can be read back from the diagnostic made of it |
| `CompositionValidity.ReportedIffInvalid` | packages/core/src/features/composition-semantics/semantic-analysis.ts:46-82 | sound and complete: for admitted input nothing is reported exactly when the composition satisfies one declarative predicate, and then roots, graph and order exist, so the assertions before the plan cannot fail |
| `CompositionOrder.ReportsSame` | packages/core/src/features/composition-semantics/binding-record.ts:66-98 | permuting declarations, provides, slots, roots, selections or rows changes no report |
| `CompositionOrder.DiagnosticsSame` | packages/core/src/features/composition-semantics/semantic-analysis.ts:69-82 | nor the finished diagnostics |
| `CompositionOrder.PlanSame` | packages/core/src/features/composition-semantics/semantic-analysis.ts:56-66 | nor the plan, which keeps provider order inside a row |
| `AssemblyProgram.CompiledIsReady` | packages/assembly/src/features/construction/prepare-program.ts:85-147 | a plan compiled from a valid composition has the unique rows, known declarations and provider-first order that construction relies on |
| `AssemblyProgram.CompiledOrders` | packages/core/src/features/composition-semantics/semantic-analysis.ts:56-66 | the dependency order of a compiled plan holds exactly the selections, each once |
| `AssemblyProgram.ValidateSelections` | packages/assembly/src/features/construction/prepare-program.ts:85-93 | accepts only a collection of declarations that is exactly the selections of the plan, with matching modules |
| `AssemblyProgram.BindRoots` | packages/assembly/src/features/construction/prepare-program.ts:95-112 | succeeds exactly when every alias names a known entry and the modules named are the roots of the plan |
| `AssemblyProgram.RootsCover` | packages/assembly/src/features/construction/prepare-program.ts:95-112 | aliases that bind name the roots of the plan, each as often as the plan lists it |
| `AssemblyProgram.CreateStep` | packages/assembly/src/features/construction/prepare-program.ts:134-145 | one step: an injection for every slot of the declaration, in order, from the row with that coordinate; it fails exactly when a row is missing |
| `AssemblyProgram.CreateProgram` | packages/assembly/src/features/construction/prepare-program.ts:124-147 | the steps are exactly the dependency order |
| `AssemblyProgram.PrepareProgram` | packages/assembly/src/features/construction/prepare-program.ts:85-147 | a program prepared from a ready plan is runnable: whatever a step injects is supplied by an earlier step, and every root is a step |
| `AssemblyProgram.CompiledProgramsRun` | packages/assembly/src/features/construction/prepare-program.ts:124-147 | so every program prepared from a compiled plan is runnable |
| `AssemblyRun.SnapshotProduct` | packages/assembly/src/features/construction/run.ts:44-54 | a product is taken exactly when it has every declared capability, and the entry is made of those |
| `AssemblyRun.DependenciesFor` | packages/assembly/src/features/construction/run.ts:56-67 | fails exactly when an injected capability is not there; otherwise one dependency per slot: for a slot of many the capability of each provider in order, for any other that of the first provider, or nothing |
| `AssemblyRun.AdmitInputs` | packages/assembly/src/features/construction/run.ts:80-94 | the given inputs are admitted exactly when they are the declared ones by name and each is a record with its declared capabilities |
| `AssemblyRun.RootInstances` | packages/assembly/src/features/construction/run.ts:69-77 | the roots of the table, failing exactly when one is missing |
| `AssemblyRun.RunAttempt` | packages/assembly/src/features/construction/run.ts:117-184 | for any program, inputs, factory outcomes, cancellation points and commit helpers: the outcome is that of the first event that stops the run, and the factories called are those of every non-input step up to it, in order; every dependency of a call is the capability of the product of an earlier step, or of the input lent in its place; on success the roots are those of the table; the products they fulfilled are each in exactly one of created and returned; for a runnable program a missing capability or root is never thrown |
| `AssemblyRun.TableProvides` | packages/assembly/src/features/construction/run.ts:133-160 | whatever a run finds for a provider is the capability of what was lent to it or of the product of an earlier step |
| `AssemblyRun.CustodyKept` | packages/assembly/src/features/construction/run.ts:117-184 | however a run ends, the products of the factories called are, in the order of the calls, the created entries and then the returned product, and what was created is an initial part of the non-input steps |
| `AssemblyRun.CallsInTurn` | packages/assembly/src/features/construction/run.ts:138-147 | factories are called of steps that are no inputs only, in order, each once, and none is skipped |
| `AssemblyRun.NoInternalMiss` | packages/assembly/src/features/construction/run.ts:133-137 | a runnable program never fails for a capability or a root that is not there |
| `AssemblyRun.SucceedsIff` | packages/assembly/src/features/construction/run.ts:138-180 | a runnable program succeeds exactly when nothing cancels it, its inputs are admitted, every factory answers with all declared capabilities and every commit takes its entry without throwing |
| `AssemblyRun.LentInputs` | packages/assembly/src/features/construction/run.ts:80-94 | admitted inputs lend one entry for each declared input, with its declared capabilities |
| `ScopeProtocol.StepValid` | packages/resources/src/features/scope/scope.ts:94-435 | every step of callers, setups, cleanups, listeners and flights keeps the invariant of the tree |
| `ScopeProtocol.RunValid` | packages/resources/src/features/scope/scope.ts:39-503 | so it holds in every state of every run |
| `ScopeProtocol.InOnePlace` | packages/resources/src/features/scope/scope.ts:51-53 | each registration that is not gone is in exactly one of live, active and failed, the one its state names |
| `ScopeProtocol.NothingUnstarted` | packages/resources/src/features/scope/scope.ts:196-244 | when no call is in progress every opened flight has started |
| `ScopeProgress.StepProgress` | packages/resources/src/features/scope/scope.ts:311-420 | no step takes back a release, a report or an attempt, reorders a list under way or adds to the work of a flight |
| `ScopeGuarantees.ReleasedOnce` | packages/resources/src/features/scope/scope.ts:383-402 | no resource is released successfully twice |
| `ScopeReleases.GoneWasReleased` | packages/resources/src/features/scope/scope.ts:383-402 | a registration that is no child is only gone after a step that released it |
| `ScopeGuarantees.CompleteMeansReleased` | packages/resources/src/features/scope/scope.ts:410-420 | a flight that settles complete leaves no pending setup, and everything ever registered in its whole subtree, detached children included, was released by a step of the run before, and stays so |
| `ScopeGuarantees.CompleteAtOnce` | packages/resources/src/features/scope/scope.ts:257-291 | so does a close that answers at once |
| `ScopeGuarantees.AttemptsAreBounded` | packages/resources/src/features/scope/scope.ts:357-381 | a flight makes at most twice its pending setups plus its live registrations attempts |
| `ScopeGuarantees.AttemptedOncePerFlight` | packages/resources/src/features/scope/scope.ts:357-402 | a flight attempts a registration at most once |
| `ScopeGuarantees.LastInFirstOut` | packages/resources/src/features/scope/scope.ts:344-381 | whatever stood above a registration when a flight was under way is gone or has been attempted when the flight attempts it |
| `ScopeOrder.NewestFirst` | packages/resources/src/features/scope/scope.ts:344-381 | when the first flight of a scope attempts a registration, every later registration is gone or has failed |
| `ScopeOrder.ReopenOrder` | packages/resources/src/features/scope/scope.ts:316-324 | reopening puts what is to be retried above what was live, and of two that are still failed the one that failed first above the other |
| `ScopeOrder.RetriedInOrder` | packages/resources/src/features/scope/scope.ts:316-381 | when a flight attempts x before y and both are still failed as the next flight opens, that flight attempts x before y, unless x is gone by then |
| `ScopeClosing.CloseSeals` | packages/resources/src/features/scope/scope.ts:196-203 | a close seals exactly the tree of its scope, detached scopes included |
| `ScopeClosing.OpensIffHolding` | packages/resources/src/features/scope/scope.ts:257-272 | with no flight in progress a close opens one exactly when something is being set up, is live or has failed; otherwise it detaches at once |
| `ScopeClosing.ParentHears` | packages/resources/src/features/scope/scope.ts:410-420 | a parent that has joined a scope hears, as its flight settles, whether it left no debts |
| `ScopeLiveness.FlightsGoOn` | packages/resources/src/features/scope/scope.ts:357-420 | in every state of every run with no call in progress, every flight has in the tree of its scope one that can attempt, take an outcome or settle, or that waits for a setup to end: no flight is ever stuck |
| `ScopeLiveness.CallsReturn` | packages/resources/src/features/scope/scope.ts:217-243 | the call in progress that was made last can always go on |
| `ScopeGuarantees.StartedOncePerFlight` | packages/resources/src/features/scope/scope.ts:223-244 | a flight starts once, with everything below sealed and no abort listener running |
| `ScopeState.PopIgnoresTombstones` | packages/resources/src/features/scope/scope.ts:344-355 | what is popped and what remains is the same with and without tombstones |
| `ScopeCompaction.StepAlike` | packages/resources/src/features/scope/scope.ts:344-355 | two trees that differ only in tombstones can do the same steps, and still differ only in tombstones after each |
| `ScopeCompaction.CompactionIsInvisible` | packages/resources/src/features/scope/scope.ts:437-449 | compacting every list at any moment of a run leaves the rest of the run possible step for step, with the same attempts, releases and reports |
| `LiveStack.LiveStack.Push` | packages/resources/src/features/scope/scope.ts:94-142 | the list changed in place is the list of the scope after the registration |
| `LiveStack.LiveStack.Pop` | packages/resources/src/features/scope/scope.ts:344-355 | pops tombstones and then the last registration that is not gone |
| `LiveStack.LiveStack.PopNext` | packages/resources/src/features/scope/scope.ts:344-381 | it pops what the flight attempts next, or finds nothing exactly when the flight can settle |
| `LiveStack.LiveStack.Forget` | packages/resources/src/features/scope/scope.ts:437-449 | the place stays as a tombstone until tombstones are many, and the list is that of the tree after the same step |
| `StoreEngine.Engine.LatestOf` | packages/observation/src/features/store/engine.ts:67-71 | the newest revision of the keys, as the full history would answer |
| `StoreEngine.Engine.MissedDepth` | packages/observation/src/features/store/engine.ts:82-92 | the greatest depth of the commits to the keys after a revision, from the per-depth slots, as the full history would answer |
| `StoreEngine.Engine.InitialLoadDepth` | packages/observation/src/features/store/engine.ts:93-102 | how deep a new load starts: the depth of its context and of the last writes in the same window |
| `StoreEngine.Engine.Attach` | packages/observation/src/features/store/engine.ts:103-112 | the buckets stay exact: the bucket of a key is the set of registrations that follow it |
| `StoreEngine.Engine.Unlink` | packages/observation/src/features/store/engine.ts:113-123 | the buckets stay exact, and empty ones go |
| `StoreEngine.Engine.Watch` | packages/observation/src/features/store/watch.ts:19-34 | a watch starts at its snapshot with the depth it has missed, and is marked when it has missed something |
| `StoreEngine.Engine.Load` | packages/observation/src/features/store/load.ts:35-55 | a load starts at its initial depth and is always marked |
| `StoreEngine.Engine.Set` | packages/observation/src/features/store/engine.ts:178-213 | the exact outcome for every patch and context; a commit adds one revision at the depth of its context plus one, changes exactly the patched values, and is a commit the rules of any world with this store allow |
| `StoreEngine.Engine.Touch` | packages/observation/src/features/store/engine.ts:214-227 | indexes, buckets and every follower of the key again answer for the longer history |
| `StoreEngine.Engine.BeginFlush` | packages/observation/src/features/store/engine.ts:163-167 | the batch holds exactly the dirty registrations, by identity |
| `StoreEngine.Engine.FlushNext` | packages/observation/src/features/store/engine.ts:168-172 | a registration is told exactly when attached and behind, with its depth and revisions; delivered revisions strictly increase; the delivery is one the rules of any world with this store allow |
| `StoreEngine.Engine.NothingLost` | packages/observation/src/features/store/engine.ts:103-172 | with no flush scheduled and no batch running, every registration has been told of every commit to its keys |
| `StoreEngine.Engine.Close` | packages/observation/src/features/store/engine.ts:228-243 | nothing stays registered or indexed, and values and history stay |
| `CommitHistory.SlotsAnswer` | packages/observation/src/features/store/engine.ts:82-92 | the per-depth slots of a key answer for the full record |
| `CommitHistory.CauseIsShallower` | packages/observation/src/features/store/engine.ts:192-213 | a commit made inside a delivery is strictly deeper than every commit that delivery answers for, loads and the contexts they were subscribed in included |
| `CommitHistory.ChainIsBounded` | packages/observation/src/features/store/engine.ts:133-213 | no chain of causes across any stores, through watches, loads and their callbacks, exceeds 64 delivery steps |
| `LoadRegistration.Registration.Flush` | packages/observation/src/features/store/load.ts:65-102 | the newest values are offered once, and their loading announced |
| `LoadRegistration.Registration.Offered` | packages/observation/src/features/store/load.ts:92-103 | the job starts, or waits alone while the older run is told to stop |
| `LoadRegistration.Registration.Run` | packages/observation/src/features/store/load.ts:125-135 | the loader is called exactly when the job is the newest offered and the newest in the store |
| `LoadRegistration.Registration.Publish` | packages/observation/src/features/store/load.ts:104-111 | a settled loader queues its outcome exactly when its values are still the newest |
| `LoadRegistration.Registration.Settle` | packages/observation/src/features/store/load.ts:112-124 | the waiting job, if any, takes the lane |
| `LoadRegistration.Registration.Report` | packages/observation/src/features/store/load.ts:104-111 | an outcome is told exactly when still current; the invariant says that the outcome of the newest offer is never lost |
| `LoadRegistration.OutcomeInOrder` | packages/observation/src/features/store/load.ts:79-143 | an outcome told is of the newest offered and the newest stored revision, after its loading, call and settlement, once |
| `LoadRegistration.OneLoaderAtATime` | packages/observation/src/features/store/load.ts:112-143 | between two loader calls the first has settled |
| `DeliveryQueue.Queue.Later` | packages/observation/src/features/delivery/context.ts:35-42 | a job goes to the end of the queue, with one native callback for it |
| `DeliveryQueue.Queue.DeliveryTask` | packages/observation/src/features/delivery/context.ts:43-47 | a task queues its run and its closing next to each other, and opens its window |
| `DeliveryQueue.Queue.RunNext` | packages/observation/src/features/delivery/context.ts:26-33 | jobs run in the order they were queued, each once; a callback always finds one, so the guard for an empty queue cannot fire |
| `DeliveryQueue.Queue.CurrentContext` | packages/observation/src/features/delivery/context.ts:12-15 | the context on the stack or else the stored one, exactly while its window is open; of the tasks that have begun it can only be the one that ran last |
| `DeliveryQueue.OneWindowAtATime` | packages/observation/src/features/delivery/context.ts:43-47 | of the tasks that have begun at most one has its window open, and closing it is the next job |
| `Observation.Observation.Set` | packages/observation/src/features/store/engine.ts:178-196 | a commit by any code, in the context in force, is answered as its store answers it, its flush is one task in the shared queue, and its cause is a delivery told and still open |
| `Observation.Observation.Watch` | packages/observation/src/features/store/watch.ts:19-34 | a watch added while anything goes on is told its flush through the same queue |
| `Observation.Observation.Load` | packages/observation/src/features/store/load.ts:35-55 | a load starts at the depth of the context in force |
| `Observation.Observation.RunNext` | packages/observation/src/features/store/engine.ts:157-172 | the next task runs; when it is the flush of a store, the store takes everything dirty, in order |
| `Observation.Observation.Tell` | packages/observation/src/features/store/engine.ts:157-172 | the next registration of the batch is told exactly when it is owed something, and its callback runs with that delivery as its context, in the window of the flush |
| `Observation.Observation.NoLongChain` | packages/observation/src/features/delivery/context.ts:7-20 | whatever stores, commits, flushes and callbacks there were, no chain of causes has more than 64 delivery steps |
| `Observation.Observation.NobodyIsOwed` | packages/observation/src/features/store/engine.ts:151-172 | once the queue is empty every registration of an open store has been told of every commit to its keys |
| `LoadSubscription.LoadSubscription.Flush` | packages/observation/src/features/store/load.ts:65-74 | the lane offers exactly what the store delivers, when it does |
| `LoadSubscription.LoadSubscription.Run` | packages/observation/src/features/store/load.ts:75-79 | currency is judged by the revision in the store: the loader is called exactly when its job is the newest of both |
| `LoadSubscription.LoadSubscription.Publish` | packages/observation/src/features/store/load.ts:104-111 | an outcome is queued exactly when its job is still the newest of both |
| `LoadSubscription.LoadSubscription.Report` | packages/observation/src/features/store/load.ts:104-111 | an outcome is told exactly when its job is still the newest of both |

## Left out

- SelectedGraph.AnalyzeSelectedGraph: readyComparisons is not modelled, and the peaks are bounded but not computed exactly; they report effort and decide nothing.
- DuplicateReplay.VisitRawDuplicatePaths: tokenVisits and the peaks of live spans and cursors are not modelled; that both counts end at zero is.
- RawDocument.ScanRawDocument: the byte scanner is not part of this model. Input is a token sequence with the decoded text and byte length of each string; positions count tokens, and an invalid byte is a token that fits nowhere.
- RawView.View.Integer: the number token carries the verdict of RawInteger.AdmitRawInteger, which is proved on bytes separately.
- RawAdmission.ScanCaptured: documents that could not be captured (null) and the capture of the byte carriers are left out.
- DiagnosticOrder.CompareDiagnostics: the canonicalizer of details is a parameter, assumed injective where uniqueness of the result needs it.
- CompositionValidity.ReportedIffInvalid: input is admitted, so sizes are within the limits and identities are well formed; the field-by-field schema checks in document-shape.ts and the snapshots are not modelled.
- SemanticCompiler.AnalyzeCompositionSemantics: the digest and the serialization of the plan are not modelled, and the resource observations are taken to describe the profile they come with.
- AssemblyProgram.PrepareProgram: collectMetadata, bindInputs and their duplicate reports are left out; declarations and inputs are given already collected.
- AssemblyRun.RunAttempt: promises are the settled outcomes of the factories, and each moment says what a factory, the commit helper and the cancellation signal do there; reading a property of a product never runs code. Causes, and the cancellation a failed outcome also carries, are left out.
- ScopeProtocol.StepValid: the tree is a state machine over values, not objects that point to each other, so that any interleaving of callers is one step after another; only the list of live registrations is also modelled as the object that changes in place.
- ScopeProtocol.Enabled: abort listeners may run at any time they could be notified, which allows more runs than the code; what a listener does is any sequence of steps.
- ScopeGuarantees.AttemptedOncePerFlight: for the reverse order only. In a concurrent batch a cleanup can close a sibling that has been popped and not yet started, which these statements do not cover.
- ScopeGuarantees.CompleteMeansReleased: reports made before a flight settles, escalation, abandoning, the text of debts and scoped() are left out.
- StoreEngine.Engine.Set: freezing, the walk over nested values and the argument checks of the patch are left out; a patch is a list of different keys and values.
- StoreEngine.Engine.FlushNext: what a callback returns or throws, reporters and error records are left out; a callback is any sequence of later calls with its delivery as context.
- StoreEngine.Engine.Close: a reporter that closes other scopes while a store closes is left out.
- LoadRegistration.Registration.Detach: draining, escalation reports and the counters are left out.
- DeliveryQueue.Queue.CurrentContext: the asynchronous storage of the platform is a parameter, the stored context; whether there is one is not detected.
- Observation.Observation.Enter: which code runs in a callback or loader is left open: any calls in any order; the life of the loader's own window is in DeliveryQueue alone.
- Names of subscriptions, limits on them and the statistics of stores are left out.
- packages/lifecycle-kernel, identity formats, conformance checks, failure formatting and architecture/** are left out: their members would be easy ones.
