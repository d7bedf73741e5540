# Mercury control plane: a verified model

This project models the decision logic of the Mercury control plane in Dafny and proves what its
modules promise each other. It has five parts.

**Graphs and cycle detection.** `Digraph` defines walks, reachability, cycles and topological orders of
graphs with labelled, parallel-capable arcs, without reference to an algorithm. `CycleDetection`,
`Objectives` and `Reachability` hold the algorithms in the form the program gives them: removal with a
queue, removal with a sorted ready list, two depth-first searches that share mutable sets, a recursive
walk that carries the path, and a worklist search. `Paths` adds the lists of nodes in which each is
joined to the next.

**The execution-graph compiler.** `WorkloadIntelligence` extracts signals, infers a profile and
calibrates it; `GraphBuilder` compiles a profile into a graph; `GraphValidation` checks a graph and
`GraphTransformation` rewrites it. Both rewrites are instances of one operation, the expansion of a node
into an entry and an exit (`NodeExpansion`), so that reachability, acyclicity and edge counts are proved
once. `GraphCases` holds a graph and a request on which the compiler does not do what one would expect.

**Model composition.** `ModelRegistry` normalises, looks up and discovers records.
`CompositionInstantiation`, `CompositionBindings`, `CompositionDrafts`, `CompositionEnumeration` and
`CompositionRuns` enumerate drafts of the certified patterns; `CompositionTopologies` tells from the
request which topologies it gets drafts of; `CompositionValidation` is the independent
validator; `CompositionAgreement` and `CompositionVerdicts` relate the two; `CompositionGeneration` is
the bounded generator. `PatternShapes` examines the shape check of patterns, and `CompositionCases`
holds two requests whose drafts are all rejected.

**Disaggregated execution.** `ExecutionProtocol` models plans, the readiness gate, segments, handoffs
and retries as steps of one transition system and proves properties of whole runs.

**Stores, offers and policies.** `ContextStore`, `SessionBinding`, `ComputeOffers`, `PolicyLayers` and
`ContextPrediction` model one stateful or order-sensitive core each.

`Orders`, `Keys`, `Sequences`, `Sets` and `Texts` are shared vocabulary: string order, sort keys,
sorting and filtering, set sizes, blank text.

## Conventions

Identifiers are strings ordered code point by code point, as Python orders them. A raise is a `None`, a
`Rejected` or a `Raised` result. A digest is an injective function, so an id or fingerprint is modelled
by the content it is computed from. Confidence is held in hundredths where the program rounds to two
places, and other floats are reals. A requirement's operator is any symbol; what a symbol other than the
four comparisons means is a parameter. Constructor checks are predicates (`WellFormed`, `Valid`,
`WellFormedRequest`). Segment activation goes through the readiness gate, as its caller at
`src/mercury/placement/candidates.py:31` does, and retries go through `can_retry_segment`.

## What turned out differently from what the program says

- The final revalidation of a rewritten graph is reachable: it raises exactly when the aggregation
  target has several incoming edges but fewer than two that carry data
  (`GraphTransformation.TransformSucceedsExactly`). An input, a transform that it feeds with data and
  with control, and an output make such a graph (`GraphCases.RevalidationIsReached`).
- A graph compiled from a structured-data workload fails validation, for want of a VALIDATION node, and
  for no other reason; every other inferred profile compiles to a graph that passes
  (`GraphBuilder.InferredGraphsCompile`). A request that supplies structured data alone is such a
  workload (`GraphCases.StructuredGraphFails`).
- A tool node of a compiled graph is given the capability of code execution, or else the first that the
  profile requires. In graphs compiled from signals that is never tool use itself, because reasoning is
  required as well and sorts first (`GraphBuilder.ToolNodesLackToolUse`).
- The pattern shape check announces "one bounded logical path", but it counts edges. It accepts
  primary-specialist-verifier patterns with an edge from the primary slot to the verifier slot
  (`PatternShapes.ForkPassesTheCheck`); these are the only accepted patterns that are not paths
  (`PatternShapes.ShapeIsAPathExactly`).
- Policy merging compares thresholds in the direction of the inherited requirement only, and only if its
  operator is `>=` or `<=`. A `<=` requirement may replace a `>=` one of lower threshold and then admit
  values the first refused (`PolicyLayers.OppositeDirectionWeakens`); a `<` requirement may replace a
  tighter `<` one (`PolicyLayers.StrictBoundWeakens`). For any operators, a successful merge tightens
  exactly when the last requirement on the metric is as tight as every HARD one
  (`PolicyLayers.MergeTightensExactly`). With one operator throughout that always holds of `>=` and
  `<=`; of `>` and `<` it holds exactly when the last threshold is the tightest, and of a symbol without
  known meaning exactly when all thresholds are equal (`PolicyLayers.OneOperatorTightensExactly`). When
  all operators are `>=` or `<=`, having one operator is necessary as well
  (`PolicyLayers.ComparedTightensExactly`).
- Blocking of roles looks up the last assessment of a claim. A required and unacceptable evidence of a
  bound role escapes it exactly when some constraint of a role of the pattern requires evidence and has
  another outcome than the last constraint on its claim
  (`CompositionVerdicts.RequiredEvidenceEscapesExactly`). On a request where two roles share a claim,
  every draft of the pattern is then rejected for it (`CompositionCases.SharedClaimEscapesBlocking`).
- With derived role requirements, stages hand text to each other. A workload without a text modality, or
  one that needs structured output without structured input, can therefore never get a valid candidate
  of more than one stage (`CompositionGeneration.WithoutTextOnlySingle`). A request for image retrieval
  has a draft of three stages that no generator policy accepts
  (`CompositionCases.ImageWorkloadIsRejected`).
- Readiness is evaluated once. A segment that was activated still starts after a handoff it requires has
  been invalidated (`ExecutionProtocol.InvalidationIsNotSeen`); what holds in every run is that the
  handoffs of a begun segment had been available (`ExecutionProtocol.BegunWasActivated`).

## Model

| member | source | states |
|---|---|---|
| Digraph.LeastFirstDecidesCycles | src/mercury/graph/validation.py:185-197 | repeatedly taking the least node without predecessors lists every node once, sources before targets, and is short of some node if and only if there is a cycle |
| Digraph.LeastFirstIsLeast | src/mercury/graph/validation.py:185-197 | the order so obtained is the lexicographically least of all topological orders, parallel edges allowed |
| CycleDetection.TopologicalOrder | src/mercury/graph/validation.py:185-197 | the loop over a sorted ready list computes that order and reports a cycle if and only if one exists |
| CycleDetection.ContainsCycle | src/mercury/graph/models.py:236-252 | the queue-based removal answers true if and only if the closed graph has a directed cycle |
| CycleDetection.Release | src/mercury/graph/models.py:247-251 | decrementing the counts of a removed node's targets, in any order, leaves exact counts and adds to the ready list exactly the nodes that lost their last predecessor |
| CycleDetection.ThreeColourSearch.Visit | src/mercury/contracts/execution_graph.py:133-144 | the recursive visit finds only real cycles; otherwise it restores the path and leaves the node and everything below it finished |
| CycleDetection.AnyVisitFindsCycle | src/mercury/contracts/execution_graph.py:126-147 | some visit reports a cycle if and only if the graph has one |
| CycleDetection.ThreeColourSearch.VisitOrRaise | src/mercury/disaggregated_execution/graph.py:17-27 | the variant that tests finished nodes first raises only for real cycles |
| CycleDetection.CycleFree | src/mercury/disaggregated_execution/graph.py:12-30 | the plan's dependency check passes if and only if there is no dependency cycle |
| Objectives.AcceptsExactlyDags | src/mercury/intelligence_slo/objectives.py:7-19 | the path-carrying walk accepts exactly the lists without duplicates whose children are declared, whose graph is acyclic and in which no HARD requirement is weighted |
| Reachability.Reachable | src/mercury/graph/validation.py:172-182 | the worklist search returns exactly the reflexive-transitive closure of the starts, in either direction |
| ExecutionGraphs.Construct | src/mercury/graph/models.py:201-234 | the constructor succeeds exactly for nonblank identities that agree with the profile, duplicate-free node lists, and closed, loop-free, acyclic edges |
| GraphValidation.ValidateExecutionGraph | src/mercury/graph/validation.py:62-165 | the validator reports exactly the issues whose meaning holds of the graph, passes when there is none, and returns the least topological order |
| GraphValidation.PassingGraphFlows | src/mercury/graph/validation.py:131-154 | in a graph that passes, every node is reachable from an INPUT, and every node but an INPUT reaches an OUTPUT |
| NodeExpansion.ReachPreserved | src/mercury/graph/transformation.py:83-114 | expanding a node into an entry and an exit keeps reachability between all other nodes, in both directions; ancestors move to the entry, descendants to the exit |
| NodeExpansion.CyclesPreserved | src/mercury/graph/transformation.py:83-114 | the expanded graph has a cycle if and only if the original has |
| NodeExpansion.OneMoreArc | src/mercury/graph/transformation.py:83-114 | every expansion adds exactly one edge; none is lost or merged |
| NodeExpansion.ArcsAround | src/mercury/graph/transformation.py:80-114 | every node keeps exactly its own incoming and outgoing edges, and entry and exit are joined by the one new edge |
| GraphTransformation.RewriteIssues | src/mercury/graph/transformation.py:76-138 | after a rewrite of a passing graph the only possible issue is a new aggregate with fewer than two data-carrying inputs, and it is raised exactly then |
| GraphTransformation.TransformSucceedsExactly | src/mercury/graph/transformation.py:65-139 | the rewriter changes a graph if and only if the graph passes, a rewrite applies, the stage ids are free and the aggregation target has two data-carrying inputs; the result then passes; it is a no-op exactly when the graph passes and nothing applies |
| GraphTransformation.NoOpExactly | src/mercury/graph/transformation.py:76-122 | of a passing graph, rewriting is a no-op if and only if no deep profile meets exactly one REASONING node and every node with two or more incoming edges is an AGGREGATE, has an edge from one, or has the name of its aggregate taken |
| GraphTransformation.NewNodes | src/mercury/graph/transformation.py:76-117 | every node that rewriting adds is one of the two stages of the one reasoning node, with its record, or an aggregate that is the only source of its target, gathers two or more edges none of which comes from an AGGREGATE, and takes over the first capability of the first of its sources |
| GraphTransformation.TransformPreservesMeaning | src/mercury/graph/transformation.py:76-117 | surviving nodes keep their records, and two different nodes are connected before if and only if they are after, the split node's ancestors being those of stage 1 and its descendants those of stage 2 |
| GraphTransformation.TransformAddsEdges | src/mercury/graph/transformation.py:83-114 | the number of edges grows by one for each rewrite applied |
| GraphTransformation.TransformLowersExcess | src/mercury/graph/transformation.py:76-122 | every changing rewrite strictly lowers the sum of one if the split applies and the number of non-aggregates with several inputs |
| GraphTransformation.NormalisationTerminates | src/mercury/graph/transformation.py:65-139 | repeating the rewriter from a well-formed graph reaches a no-op or a raise within the number of nodes plus one calls |
| GraphTransformation.TransformExecutionGraph | src/mercury/graph/transformation.py:65-139 | the loops over nodes, edges and targets, with their continue and break, compute the specified rewrite |
| GraphCases.RevalidationIsReached | src/mercury/graph/transformation.py:136-139 | a concrete graph that passes validation, to which a rewrite applies, and whose rewriting raises |
| WorkloadIntelligence.ExtractionFailsExactly | src/mercury/intelligence/signals.py:119-126 | extraction fails exactly for two constraints of one canonical kind |
| WorkloadIntelligence.ExtractedConstraints | src/mercury/intelligence/signals.py:119-126 | otherwise the latency, quality and privacy signals are the one constraint of their kind |
| WorkloadIntelligence.ExtractedModalities | src/mercury/intelligence/signals.py:146-153 | the modalities are exactly those of the supplied, non-null inputs, with two keys for images, and code for a coding task |
| WorkloadIntelligence.ExtractedPresence | src/mercury/intelligence/signals.py:155-161 | a presence flag is unknown exactly without a key of its modality and set exactly when one is supplied |
| WorkloadIntelligence.ExtractedContext | src/mercury/intelligence/signals.py:128-221 | the context flags are set exactly by the boolean and nonempty values of their keys |
| WorkloadIntelligence.ExtractedTexts | src/mercury/intelligence/signals.py:39-46 | references, tools and the output type are exactly the stripped nonblank texts of their keys |
| WorkloadIntelligence.InferWorkload | src/mercury/intelligence/inference.py:147-193 | the steps of inference compute the specified profile |
| WorkloadIntelligence.InferredComplexity | src/mercury/intelligence/inference.py:43-54 | the complexity is High or Deep exactly for long context together with tools or references, Deep exactly for all three, at least Moderate exactly for two of them, and Minimal exactly without tools, references and context |
| WorkloadIntelligence.InferredBands | src/mercury/intelligence/inference.py:57-88 | context, latency and quality are exactly the bands that the signals fall into |
| WorkloadIntelligence.InferredModality | src/mercury/intelligence/inference.py:31-40 | each modality is inferred exactly from its name alone, several names are multimodal, none or an unknown one an error |
| WorkloadIntelligence.InferredPrivacy | src/mercury/intelligence/inference.py:91-100 | each privacy level is kept, none becomes the strictest, anything else is an error |
| WorkloadIntelligence.InferenceFailsExactly | src/mercury/intelligence/inference.py:31-100 | inference fails exactly for missing or unknown modalities and for a privacy that is no level |
| WorkloadIntelligence.EvidenceNeverLowers | src/mercury/intelligence/inference.py:43-144 | more evidence of the same workload never takes a capability away and lowers neither complexity nor confidence |
| WorkloadIntelligence.ExpectationsAgree | src/mercury/intelligence/calibration.py:89-115 | the modality and complexity that calibration expects by its own rules are those that inference infers |
| WorkloadIntelligence.InferredIsSupportedExactly | src/mercury/intelligence/calibration.py:139-237 | an inferred profile is supported by its signals if and only if the presence fields back its modality; its confidence is at least 0.20 and at most 1 |
| WorkloadIntelligence.ExtractionBacksModality | src/mercury/intelligence/signals.py:128-221 | extraction always sets the presence fields that back the modality inferred from it |
| WorkloadIntelligence.Calibrate | src/mercury/intelligence/calibration.py:139-237 | calibration fails exactly for profiles of another workload or that the signals do not support, passes exactly for supported ones with no missing field, and otherwise lowers the confidence to at most 97, less 10 for each missing field and 3 for a derived complexity |
| WorkloadIntelligence.AnalyzeWorkload | src/mercury/intelligence/pipeline.py:114-140 | analysis raises exactly for a blank identity and fails exactly when extraction or inference does: whatever inference produces from extracted signals is never failed by calibration; it passes exactly when a signal speaks for every field, with calibrated confidence between 0 and the profile's, at most 1 |
| GraphBuilder.BuildExecutionGraph | src/mercury/graph/builder.py:32-135 | the builder raises exactly when the pipeline result is incomplete or the profile has no capability or not one modality, and otherwise returns the chain of the stages the profile calls for |
| GraphBuilder.BuiltGraphIssues | src/mercury/graph/builder.py:59-135 | a compiled graph lacks a VALIDATION node exactly when structured output is required of a structured-data workload, lacks a PREPROCESS node exactly when vision is required of a workload neither visual nor audible, and has no other issue |
| GraphBuilder.BuiltReasoners | src/mercury/graph/builder.py:99-106 | a compiled graph has two REASONING nodes for High and Deep complexity, one when reasoning is a required capability, and none otherwise |
| GraphBuilder.InferredReasoners | src/mercury/graph/builder.py:99-106 | from signals to graph: two REASONING nodes exactly for long context together with tools or references, one exactly for only tools, references or context |
| GraphBuilder.BuiltCapabilities | src/mercury/graph/builder.py:53-111 | every node carries the capability its type calls for when the profile requires it, and else the first required one |
| IntelligenceModels.FirstIsLeastValue | src/mercury/intelligence/models.py:110-114 | the first capability of a canonical tuple is the one with the least value |
| GraphBuilder.ToolNodesLackToolUse | src/mercury/graph/builder.py:93-98 | no TOOL node of a graph compiled from signals carries the capability of tool use |
| GraphBuilder.ChainIsItsOwnOrder | src/mercury/graph/builder.py:113-135 | the validator's topological order of a compiled chain is the order of construction |
| GraphBuilder.BuiltGraphIsNormal | src/mercury/graph/builder.py:86-135 | compiled graphs are well-formed and no rewrite applies to them |
| GraphBuilder.InferredGraphsCompile | src/mercury/graph/builder.py:59-135 | for every inferred profile the compiled graph passes if and only if the modality is not structured data, has the missing VALIDATION node as its sole possible issue, keeps construction order, and is a no-op of the rewriter when it passes |
| GraphCases.StructuredGraphFails | src/mercury/graph/builder.py:59-135 | a concrete request that is inferred to be of structured data, compiles, and whose graph has that issue and no other |
| ModelRegistry.NormalizeRecords | src/mercury/models/registry.py:54-68 | normalisation raises exactly when two records of one identity differ; otherwise it keeps the same records, each once, strictly ordered by identity |
| ModelRegistry.RegistryIdentitiesUnique | src/mercury/models/registry.py:54-68 | a normalised registry has one record for each exact identity |
| ModelRegistry.Lookup | src/mercury/models/registry.py:80-89 | lookup returns the record of the exact identity and raises only when there is none |
| ModelRegistry.DiscoverCapabilities | src/mercury/models/discovery.py:63-79 | discovery returns every compatible record and no other, strictly ordered, so that its uniqueness check never raises |
| CompositionPatterns.GraphIsAConnectedDag | src/mercury/composition/contracts.py:321-362 | the draft's graph check accepts exactly the proper, orphan-free, connected, acyclic graphs |
| CompositionPatterns.PathIsConnectedDag | src/mercury/composition/contracts.py:321-362 | every path over distinct stages passes that check |
| PatternShapes.CheckShape | src/mercury/composition/patterns.py:180-264 | the shape check accepts exactly the patterns of the stated shape and returns their slots in topological order |
| PatternShapes.ShapeIsAPathExactly | src/mercury/composition/patterns.py:242-247 | an accepted pattern is a path if and only if it is no primary-specialist-verifier pattern with an edge from its primary slot to its verifier slot, which is checked on the pattern as handed in |
| PatternShapes.ForkPassesTheCheck | src/mercury/composition/patterns.py:242-247 | a concrete accepted pattern that is not a path |
| PatternShapes.CertifiedPatternsHaveShape | src/mercury/composition/patterns.py:283-374 | all seven certified patterns pass the shape check, their slots already in path order |
| CompositionBindings.AgreesOnGroups | src/mercury/composition/instantiation.py:540-549 | the loop over identity groups accepts a combination exactly when slots of one group hold one identity |
| CompositionBindings.BindingsAreExact | src/mercury/composition/instantiation.py:534-551 | the bindings are precisely the tuples of the product that agree on identity groups |
| CompositionBindings.BindingsAscend | src/mercury/composition/instantiation.py:534-551 | they come in strict lexicographic order of identities, hence once each |
| CompositionInstantiation.NeedsCover | src/mercury/composition/instantiation.py:349-477 | every role requirement, explicit or derived, has nonblank ids, artifacts with modalities and provenance |
| CompositionInstantiation.DeriveRoleRequirements | src/mercury/composition/instantiation.py:349-477 | the field-by-field derivation computes the specified requirement of every role, or fails when one has none |
| CompositionInstantiation.FindBlockedRoles | src/mercury/composition/instantiation.py:520-531 | the blocked roles are those with a constraint that requires evidence whose claim's last assessment is not acceptable |
| CompositionDrafts.PatternIdIsDashedTopology | src/mercury/composition/patterns.py:118-121 | the id of every certified pattern is its topology's value with dashes for underscores |
| CompositionDrafts.StageNameIsDashedRole | src/mercury/composition/patterns.py:283-374 | an ungrouped stage of a certified pattern is named by the value of its role with dashes for underscores |
| CompositionDrafts.DraftIsWellFormed | src/mercury/composition/instantiation.py:599-730 | building a draft never raises: every binding yields a connected acyclic draft whose contracts hold |
| CompositionEnumeration.AllDraftsAreExact | src/mercury/composition/instantiation.py:733-804 | the drafts of a request are exactly those of the admissible bindings of applicable patterns: registered, compatible, unblocked records that agree on groups |
| CompositionTopologies.TopologyIsEnumeratedExactly | src/mercury/composition/instantiation.py:480-508 | a request has a draft of a topology if and only if its graph has the node, or its explicit roles the role, that calls for it, and each role is explicit or derivable, unblocked and has a registered compatible record |
| CompositionTopologies.RequirementsExactly | src/mercury/composition/instantiation.py:349-477 | all roles of a pattern get a requirement exactly when specialist and critic are explicit and the workload has a modality for the other roles that are not |
| CompositionTopologies.BindingExistsExactly | src/mercury/composition/instantiation.py:534-551 | an admissible binding exists exactly when every role has an unblocked compatible record, identity groups notwithstanding |
| CompositionTopologies.CapabilitiesCallForTopologies | src/mercury/composition/instantiation.py:480-508 | for compiled workloads, retrieval, tool and verifier patterns are called for exactly by the capabilities of the profile |
| CompositionTopologies.SignalsNameModelModalities | src/mercury/composition/instantiation.py:305-326 | whether a workload has one modality or several, the modalities required of models are exactly those its signals name, code being text |
| CompositionTopologies.SignalsCallForTopologies | src/mercury/composition/instantiation.py:480-508 | from signals: by references, by tools, and by required structured output of an input that is not structured data |
| CompositionEnumeration.AllDraftsDiffer | src/mercury/composition/generation.py:343-353 | no two drafts of a request share a signature or a composition id |
| CompositionRuns.Instantiate | src/mercury/composition/instantiation.py:733-804 | the loops build exactly those drafts, in order, and report exactly why a pattern contributes none |
| CompositionValidation.ValidateCompositionCandidate | src/mercury/composition/validation.py:685-727 | the validator reports exactly the issues that hold of a draft, and passes exactly when there is none |
| CompositionValidation.IdentityIssues | src/mercury/composition/validation.py:412-474 | a stage is reported unregistered exactly when its record is not in the registry, incompatible exactly when compatibility fails, and the repeated primary exactly when a return topology does not bind two PRIMARY stages to one identity |
| CompositionAgreement.TopologyAgrees | src/mercury/composition/validation.py:293-409 | no instantiated draft has a topology or pattern issue |
| CompositionAgreement.IdAgrees | src/mercury/composition/validation.py:236-290 | the id recomputed from a draft's stages and justifications is the one instantiation computed |
| CompositionAgreement.OnlyHandoffsAndEvidence | src/mercury/composition/validation.py:293-727 | whatever the validator holds against an instantiated draft is about evidence or a handoff |
| CompositionVerdicts.DraftPassesExactly | src/mercury/composition/validation.py:477-590 | an instantiated draft passes if and only if the handoffs of its role requirements fit and the evidence for its roles is acceptable, whatever models it binds |
| CompositionVerdicts.RequiredEvidenceEscapesExactly | src/mercury/composition/instantiation.py:520-531 | an admissible binding has unacceptable required evidence if and only if a constraint of its roles requires evidence and has another outcome than the last constraint on its claim |
| CompositionVerdicts.EvidenceAfterBlocking | src/mercury/composition/instantiation.py:520-531 | the evidence of an admissible binding is acceptable if and only if no constraint of its roles is overlooked in that way, nor is one unacceptable that itself requires no evidence |
| CompositionVerdicts.BlockedEvidenceIsNeverSeen | src/mercury/composition/instantiation.py:520-531 | when the outcomes of each claim agree, only constraints that do not themselves require evidence can be unacceptable after blocking |
| CompositionCases.SharedClaimEscapesBlocking | src/mercury/composition/instantiation.py:520-531 | a well-formed request with two constraints on one claim, and an instantiated draft of it for which the validator reports the required evidence; no draft of the pattern passes |
| CompositionVerdicts.DerivedHandoffsFitExactly | src/mercury/composition/validation.py:531-590 | with derived requirements only, handoffs fit exactly when there is one stage, or the workload has text and has structured data if its output must be structured |
| CompositionGeneration.TakeUnique | src/mercury/composition/generation.py:343-353 | the deduplicating loop never merges, keeps the first drafts up to the cap, and reports truncation exactly when there are more |
| CompositionGeneration.GenerateCompositions | src/mercury/composition/generation.py:338-416 | emitted valid plus rejected is the smaller of the number of drafts and the cap; truncation is reported exactly beyond it; every draft taken is reported once, on the right side; both consistency checks hold; the status follows |
| CompositionGeneration.AcceptedExactly | src/mercury/composition/generation.py:355-375 | a draft is emitted as valid exactly when it has few enough nodes, its handoffs fit and its evidence is acceptable |
| CompositionGeneration.WithoutTextOnlySingle | src/mercury/composition/generation.py:355-375 | with derived requirements only and a workload that cannot carry text, every valid candidate is a single model |
| CompositionGeneration.WithoutTextCompositionFails | src/mercury/composition/generation.py:395-408 | when composition is required as well, no draft is valid |
| CompositionCases.ImageWorkloadIsRejected | src/mercury/composition/generation.py:395-408 | a concrete request, without text and with composition required, whose enumeration holds a draft of three stages that no policy accepts |
| ExecutionProtocol.BuildPlan | src/mercury/disaggregated_execution/graph.py:33-80 | a plan is accepted exactly when it is bounded, duplicate-free, closed, acyclic, in one namespace and with declared handoffs |
| ExecutionProtocol.PlanHasEnds | src/mercury/disaggregated_execution/graph.py:63-67 | every nonempty acyclic plan has entry and terminal segments, so the raise for their absence is unreachable |
| ExecutionProtocol.StepsAreGuarded | src/mercury/disaggregated_execution/readiness.py:8-76 | when each of the nine steps goes through, on states, dependencies, handoffs, attempts and reasons; activation exactly when planned, all dependencies succeeded and all required handoffs available to the segment; success only when verified |
| ExecutionProtocol.StepsChangeOneThing | src/mercury/disaggregated_execution/readiness.py:35-76 | the whole state after each step |
| ExecutionProtocol.ExecutionIsSafe | src/mercury/disaggregated_execution/readiness.py:8-76 | after every run from the planned state, a segment that has begun has all its transitive dependencies succeeded and all its required handoffs addressed to it and no longer pending, and no segment was started more often than its policy admits, at most 8 times |
| ExecutionProtocol.BegunWasActivated | src/mercury/disaggregated_execution/readiness.py:8-32 | a planned segment that has begun by the end of a run was activated in it, in a state where its dependencies had succeeded and its handoffs were available to it |
| ExecutionProtocol.RunsAreRecorded | src/mercury/disaggregated_execution/readiness.py:35-76 | over every run, the attempts of a segment are its starts, and it has succeeded only by a verified success among the steps |
| ExecutionProtocol.EndsAreFinal | src/mercury/disaggregated_execution/readiness.py:35-76 | a succeeded or cancelled segment is left as it is by every run |
| ExecutionProtocol.InvalidationIsNotSeen | src/mercury/disaggregated_execution/readiness.py:8-32 | a ready segment starts even after one of its handoffs has been invalidated |
| ExecutionProtocol.TakeKeepsSafe | src/mercury/disaggregated_execution/readiness.py:35-76 | every single step keeps the invariant behind that, handoffs included |
| ExecutionProtocol.SomeSegmentIsReady | src/mercury/disaggregated_execution/readiness.py:8-32 | if every segment is planned or succeeded, not all succeeded, and required handoffs are available to their consumers, some segment can be activated |
| ExecutionProtocol.RunsAreFinite | src/mercury/disaggregated_execution/readiness.py:35-76 | every run from a safe state is at most as long as a potential computed from it |
| ExecutionProtocol.InitialRunsAreBounded | src/mercury/disaggregated_execution/readiness.py:35-76 | a run from an initial state takes at most 3n + 3 steps for each segment, n being the largest number of attempts, and two for each handoff |
| ExecutionProtocol.StuckRunsAreDone | src/mercury/disaggregated_execution/readiness.py:35-76 | a run of an acyclic plan that no step can take forward, with no segment cancelled or out of retries and every required handoff pending or available, has every segment succeeded |
| ContextStore.Register | src/mercury/global_memory/store.py:152-218 | registration raises exactly in the stated cases and otherwise adds the record, in order |
| ContextStore.Close | src/mercury/global_memory/store.py:54-110 | closing raises exactly in the stated cases and otherwise adds one closure |
| ContextStore.RunsGrow | src/mercury/global_memory/store.py:54-218 | over every run from the empty store, ids stay unique, records stay sorted, namespaces stay within 4096 records, closures stay well-formed, nothing is lost or altered, and closed namespaces and their closures never change |
| ContextStore.NothingIsLost | src/mercury/global_memory/store.py:54-218 | in every run, stored records and closures stay as they are, and a closed namespace gets no record and no other closure |
| ContextStore.ValidStoreIsOrdered | src/mercury/global_memory/store.py:54-218 | a valid store lists records strictly by namespace kind, namespace id, sequence and record id, no id twice, and closures strictly by namespace |
| ContextStore.ClosingRaisesExactly | src/mercury/global_memory/store.py:54-83 | in a valid store, closing raises exactly for blank texts, a sequence below 1, and a namespace closed with another reason or sequence |
| ContextStore.ReregistrationIsNoOp | src/mercury/global_memory/store.py:152-218 | registering a stored record again changes nothing |
| ContextStore.RegistrationsCommute | src/mercury/global_memory/store.py:152-218 | two registrations that succeed one after the other also succeed in the other order, with the same store |
| SessionBinding.Bind | src/mercury/gateway/session.py:72-117 | the scan with its early return and raises computes the specified outcome |
| SessionBinding.OrderDoesNotMatter | src/mercury/gateway/session.py:82-101 | while the existing bindings are functional, the outcome depends only on which bindings there are, despite the early return |
| SessionBinding.AppendKeepsFunctional | src/mercury/gateway/session.py:72-117 | appending the binding just returned keeps session, workload and key functional |
| SessionBinding.ReplayReturnsOriginal | src/mercury/gateway/session.py:91-101 | in every run, a request that was bound once is answered with its original binding ever after |
| ComputeOffers.GenerateOffers | src/mercury/compute_negotiator/offers.py:4-37 | with the six protected constraints added to the caller's, generation raises exactly when the contract of some offer does, and otherwise returns the frontier of the offers that meet the floor, in order of their ids; the comparison that skips equal ids changes nothing |
| ComputeOffers.OffersRaiseExactly | src/mercury/compute_negotiator/offers.py:6-23 | generation raises exactly when an option that meets the floor is out of range or changes a protected constraint, or there is one and the lease or the request id is bad |
| ComputeOffers.OffersAreSound | src/mercury/compute_negotiator/offers.py:6-23 | every offer is an option that meets the floor, under the terms of the request with the six constraints protected |
| ComputeOffers.EveryOptionIsMatched | src/mercury/compute_negotiator/offers.py:25-36 | every option that meets the floor is matched by an offer at least as good in quality, latency and resources |
| ComputeOffers.DroppedIsDominatedByKept | src/mercury/compute_negotiator/offers.py:25-36 | every offer dropped is dominated by one that is kept |
| ComputeOffers.OffersExistExactly | src/mercury/compute_negotiator/offers.py:6-37 | there is an offer if and only if some option meets the floor |
| ComputeOffers.OffersIgnoreOrder | src/mercury/compute_negotiator/offers.py:4-37 | permuting the options changes neither success nor the offers |
| PolicyLayers.MergeTypedPolicyLayers | src/mercury/intelligence_slo/policy.py:13-29 | the loops over sorted layers compute the specified fold, or raise with it |
| PolicyLayers.MergeRaisesExactly | src/mercury/intelligence_slo/policy.py:19-25 | merging raises exactly when some requirement follows a HARD one of its metric, with none in between, and is not HARD, lies below its lower bound or above its upper bound |
| PolicyLayers.GeneralComesFirst | src/mercury/intelligence_slo/policy.py:14-15 | layers are merged from the most general scope to the least |
| PolicyLayers.SortingIsStable | src/mercury/intelligence_slo/policy.py:14-15 | the layers of each scope keep their order |
| PolicyLayers.MergedIsTightest | src/mercury/intelligence_slo/policy.py:17-28 | when all HARD requirements of a metric have the operator `>=`, or all `<=`, the merged one is HARD, has that operator, and is at least as tight as each |
| PolicyLayers.MergeTightensExactly | src/mercury/intelligence_slo/policy.py:17-28 | whatever the operators, the merged requirement is the last one on the metric, and a value that meets it meets every HARD requirement of the metric if and only if it is as tight as each of them |
| PolicyLayers.OneOperatorTightensExactly | src/mercury/intelligence_slo/policy.py:17-28 | with one operator this always holds of `>=` and `<=`, holds of `>` and `<` exactly when the last threshold is the tightest, and of other symbols exactly when all thresholds are equal |
| PolicyLayers.ComparedTightensExactly | src/mercury/intelligence_slo/policy.py:17-28 | when every operator is `>=` or `<=`, merging tightens if and only if there is one operator |
| PolicyLayers.OppositeDirectionWeakens | src/mercury/intelligence_slo/policy.py:20-26 | two requirements of opposite operators that merge into one that admits a value the first refused |
| PolicyLayers.StrictBoundWeakens | src/mercury/intelligence_slo/policy.py:20-26 | two requirements with the operator `<` that merge into the looser one |
| PolicyLayers.SortingKeepsRequirements | src/mercury/intelligence_slo/policy.py:14-15 | sorting layers by scope loses and adds no requirement |
| ContextPrediction.BuildCandidates | src/mercury/context_prediction/candidates.py:30-127 | candidate building raises exactly for blank dependency keys, a session of another namespace, malformed closures, a closed namespace, and sets of sources that are out of scope, without evidence, conflicting or too large, and otherwise groups by context key |
| ContextPrediction.ReachableStoreIsInOrder | src/mercury/context_prediction/candidates.py:78-87 | a store made by registrations and closings alone has no malformed closure, so that it makes a call fail exactly when the namespace is closed |
| ContextPrediction.GroupsPartitionSources | src/mercury/context_prediction/candidates.py:89-127 | each active source is in the group of its key and in no other, and the groups hold nothing else |
| ContextPrediction.ReferenceSequences | src/mercury/context_prediction/integration.py:40-44 | the references are exactly the maximum sequence of each domain |
| ContextPrediction.ComputeRecency | src/mercury/context_prediction/features.py:91-112 | recency raises exactly when a known reference precedes a source, is absent only for lack of sources or of a reference, and otherwise is the mean freshness |
| ContextPrediction.CandidateRecency | src/mercury/context_prediction/integration.py:40-56 | with those references every candidate has a recency in (0, 1], equal to 1 exactly when all of its evidence is the latest of its domain; the raise is unreachable |
| ContextPrediction.OverlapIsSimilarity | src/mercury/context_prediction/features.py:18-23 | the overlap ratio is symmetric, lies in [0, 1], is 0 exactly for disjoint lists and 1 exactly for equal nonempty ones |
| ContextPrediction.TopIsBest | src/mercury/context_prediction/predictor.py:129-144 | as many predictions are kept as the limit admits, in order, and each precedes every one that is left out: by a nearer horizon, then a higher confidence, then a smaller key |
| ContextPrediction.AnswerIsBest | src/mercury/context_prediction/predictor.py:129-144 | an answer scores the active sources of each key against the latest sequences, holds only what the request asks for, is in that order, has at most 64 predictions, and leaves a key out only when the limit is reached by predictions that precede it |
| ContextPrediction.CandidatesAreBounded | src/mercury/context_prediction/candidates.py:113-127 | there are at most 256 candidates, each with at most 128 source records |
| ContextPrediction.PredictContext | src/mercury/context_prediction/integration.py:16-62 | prediction succeeds exactly for acceptable sources and returns the first predictions of the sorted list |
| ContextPrediction.PredictionIgnoresOrder | src/mercury/context_prediction/integration.py:16-62 | permuting or repeating sources does not change the answer |

## Left out

- The limits on generation policies: the results on the generator hold for every policy.
- Hashing, JSON and fingerprint strings: a digest stands for its content.
- Checks that only an object built around the constructors can fail: wrong Python types, duplicate or blank node ids inside the validators, unsupported enum values.
- Purpose, evidence and provenance texts of graph nodes and graphs; composition provenance keeps the phase and the artifact only.
- The order of graph edges that differ in evidence only: edges are sets.
- Blank characters other than space, tab, carriage return and line feed.
- Evidence assessment and record compatibility: parameters of the composition model.
- merge_duplicate_drafts: within one request it is never reached (`CompositionEnumeration.AllDraftsDiffer`), and drafts of different requests are never merged.
- The order of valid and rejected candidates in a composition result, which follows the digests.
- Applicability and max_nodes of patterns: tables that the topology determines.
- The text fields of generation metadata, issues and justifications, and the schema version: constants.
- Leaked-field reflection of the composition validator, and its malformed-object branches.
- stitch_execution_results, the plan's fingerprint and the sorted order of its segments and handoffs: selections and sorts without further structure.
- Prediction weights, confidence bands and prediction ids: the scorer is a parameter; context keys differ between candidates, so ids never decide the order.
- Policy provenance strings, and merge_policy_layers, the untyped variant of the same fold.
- Entry and terminal node lists, edge ids and frozen metadata of the execution-graph contract.
- Placement, certification, topology, gateway admission, migration, federation and the other packages of the control plane: field copying, boolean gates and file handling.
- CycleDetection.Release: does not fix the order in which the targets of a removed node are visited; it holds for every order.
- CycleDetection.ThreeColourSearch.Visit: does not fix the order of the targets either.
