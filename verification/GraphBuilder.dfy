/** The compiler from a workload profile to its logical graph: a chain of stages. */
module GraphBuilder {
  import opened Orders
  import opened Digraph
  import opened Paths
  import opened ExecutionGraphs
  import opened GraphValidation
  import opened IntelligenceModels
  import opened Texts
  import CD = CycleDetection
  import GraphTransformation
  import WorkloadIntelligence
  import opened Sets

  // ----- chains

  const FLOW_EVIDENCE: set<Evidence> :=
    {Evidence("phase2.intelligence", "logical data dependency follows deterministic stage order")}

  function StageLink(t: NodeType): Link { Link(if t == Tool then ToolResult else Data, FLOW_EVIDENCE) }

  function ChainEdge(stages: seq<(string, GraphNode)>, i: nat): Edge
    requires i + 1 < |stages|
  {
    Arc(stages[i].0, stages[i+1].0, StageLink(stages[i].1.nodeType))
  }

  function ChainEdges(stages: seq<(string, GraphNode)>): set<Edge> {
    set i | 0 <= i < |stages| - 1 :: ChainEdge(stages, i)
  }

  function ChainId(profile: Profile): GraphId { GraphId("graph-" + profile.identity.requestId, profile.identity) }

  function Chain(stages: seq<(string, GraphNode)>, profile: Profile): ExecutionGraph {
    ExecutionGraph(ChainId(profile), NodeMap(stages), ChainEdges(stages), Some(profile))
  }

  /** An input first, an output last, processing stages other than aggregates in between. */
  predicate IsPipeline(stages: seq<(string, GraphNode)>) {
    && |stages| >= 2 && Distinct(NodeIds(stages))
    && stages[0].1.nodeType == Input && stages[|stages|-1].1.nodeType == Output
    && (forall i :: 0 < i < |stages| - 1 ==> stages[i].1.nodeType !in {Input, Output, Aggregate})
    && (forall i :: 0 <= i < |stages| ==> stages[i].1.capabilities != {})
  }

  lemma {:induction false} NodeMapAt(stages: seq<(string, GraphNode)>, i: nat)
    requires Distinct(NodeIds(stages)) && i < |stages|
    ensures stages[i].0 in NodeMap(stages) && NodeMap(stages)[stages[i].0] == stages[i].1
  {
    var init := stages[..|stages|-1];
    assert NodeIds(stages) == NodeIds(init) + [stages[|stages|-1].0];
    assert Distinct(NodeIds(init)) by {
      assert forall j :: 0 <= j < |init| ==> NodeIds(init)[j] == NodeIds(stages)[j];
    }
    if i < |stages| - 1 {
      NodeMapAt(init, i);
      assert NodeIds(stages)[i] != NodeIds(stages)[|stages|-1];
    }
  }

  /** The edges into and out of each stage of a chain. */
  lemma ChainNeighbours(stages: seq<(string, GraphNode)>, i: nat)
    requires Distinct(NodeIds(stages)) && i < |stages|
    ensures CD.In(ChainEdges(stages), stages[i].0) == if i == 0 then {} else {ChainEdge(stages, i - 1)}
    ensures CD.Out(ChainEdges(stages), stages[i].0) == if i == |stages| - 1 then {} else {ChainEdge(stages, i)}
  {
    var ids := NodeIds(stages);
    forall j | 0 <= j < |stages| && stages[j].0 == stages[i].0 ensures j == i {
      assert ids[j] == ids[i];
    }
    if i > 0 { assert ChainEdge(stages, i - 1) in ChainEdges(stages); }
    if i < |stages| - 1 { assert ChainEdge(stages, i) in ChainEdges(stages); }
  }

  lemma ChainIsPath(stages: seq<(string, GraphNode)>)
    requires Distinct(NodeIds(stages)) && stages != []
    ensures IsPath(NodeIds(stages), ChainEdges(stages))
  {
    var ids, edges := NodeIds(stages), ChainEdges(stages);
    forall i | 0 <= i < |ids| - 1 ensures Linked(edges, ids[i], ids[i+1]) {
      assert ChainEdge(stages, i) in edges;
    }
    forall e | e in edges ensures exists i {:trigger ids[i]} :: 0 <= i < |ids| - 1 && e.src == ids[i] && e.dst == ids[i+1] {
      var i :| 0 <= i < |stages| - 1 && e == ChainEdge(stages, i);
      assert e.src == ids[i] && e.dst == ids[i+1];
    }
  }

  /** The least-first order of a chain is the order in which it was built. */
  lemma ChainIsItsOwnOrder(stages: seq<(string, GraphNode)>)
    requires Distinct(NodeIds(stages)) && stages != []
    ensures LeastFirst(NodeMap(stages).Keys, ChainEdges(stages)) == NodeIds(stages)
  {
    ChainIsPath(stages);
    PathIsItsOwnOrder(NodeIds(stages), ChainEdges(stages));
  }

  lemma PipelineIsWellFormed(stages: seq<(string, GraphNode)>, profile: Profile)
    requires IsPipeline(stages) && profile.identity.IsNonblank()
    ensures WellFormed(Chain(stages, profile))
  {
    NonblankHead(ChainId(profile).id);
    ChainIsPath(stages);
    PathIsAcyclic(NodeIds(stages), ChainEdges(stages));
    var g := Chain(stages, profile);
    NodeMapAt(stages, 0);
    forall n | n in g.nodes ensures g.nodes[n].capabilities != {} {
      var i := StageAt(stages, n);
    }
  }

  lemma StageAt(stages: seq<(string, GraphNode)>, n: string) returns (i: nat)
    requires Distinct(NodeIds(stages)) && n in NodeMap(stages)
    ensures i < |stages| && stages[i].0 == n && NodeMap(stages)[n] == stages[i].1
  {
    assert n in Elements(NodeIds(stages));
    i :| 0 <= i < |NodeIds(stages)| && NodeIds(stages)[i] == n;
    NodeMapAt(stages, i);
  }

  lemma PipelineFlows(stages: seq<(string, GraphNode)>, profile: Profile, k: nat)
    requires IsPipeline(stages) && profile.identity.IsNonblank() && k < |stages|
    ensures FromInput(Chain(stages, profile), stages[k].0) && ToOutput(Chain(stages, profile), stages[k].0)
  {
    var g := Chain(stages, profile);
    PipelineIsWellFormed(stages, profile);
    AllValid(g);
    NodeMapAt(stages, 0);
    NodeMapAt(stages, |stages| - 1);
    ChainIsPath(stages);
    PathReach(NodeIds(stages), ChainEdges(stages), 0, k);
    PathReach(NodeIds(stages), ChainEdges(stages), k, |stages| - 1);
    assert IsType(g, stages[0].0, Input) && IsType(g, stages[|stages|-1].0, Output);
  }

  lemma PipelineStageIsFed(stages: seq<(string, GraphNode)>, k: nat)
    requires Distinct(NodeIds(stages)) && 0 < k < |stages|
    ensures DataInputs(ChainEdges(stages), stages[k].0) != {}
  {
    ChainNeighbours(stages, k);
    var e := ChainEdge(stages, k - 1);
    assert e in CD.In(ChainEdges(stages), stages[k].0);
    assert e in DataInputs(ChainEdges(stages), stages[k].0);
  }

  /** Enough for a node to raise nothing, when no stage is an aggregate. */
  ghost predicate WellFed(g: ExecutionGraph, n: string) {
    && n in g.nodes && g.nodes[n].nodeType != Aggregate
    && (if g.nodes[n].nodeType == Input then CD.In(ValidEdges(g), n) == {} else DataInputs(ValidEdges(g), n) != {})
    && (CD.Out(ValidEdges(g), n) == {} <==> g.nodes[n].nodeType == Output)
    && FromInput(g, n) && ToOutput(g, n)
  }

  lemma WellFedRaisesNothing(g: ExecutionGraph, i: Issue)
    requires AboutNodes(i) && WellFed(g, i.node)
    ensures !NodeRaises(g, i)
  {}

  lemma PipelineBoundary(stages: seq<(string, GraphNode)>, k: nat)
    requires IsPipeline(stages) && k < |stages|
    ensures stages[k].1.nodeType == Input <==> k == 0
    ensures stages[k].1.nodeType == Output <==> k == |stages| - 1
    ensures CD.In(ChainEdges(stages), stages[k].0) == {} <==> k == 0
    ensures CD.Out(ChainEdges(stages), stages[k].0) == {} <==> k == |stages| - 1
  {
    ChainNeighbours(stages, k);
  }

  lemma PipelineStageIsWellFed(stages: seq<(string, GraphNode)>, profile: Profile, k: nat)
    requires IsPipeline(stages) && profile.identity.IsNonblank() && k < |stages|
    ensures WellFed(Chain(stages, profile), stages[k].0)
  {
    PipelineIsWellFormed(stages, profile);
    AllValid(Chain(stages, profile));
    NodeMapAt(stages, k);
    PipelineBoundary(stages, k);
    PipelineFlows(stages, profile, k);
    if k > 0 { PipelineStageIsFed(stages, k); }
  }

  lemma PipelineNodeRaisesNothing(stages: seq<(string, GraphNode)>, profile: Profile, i: Issue)
    requires IsPipeline(stages) && profile.identity.IsNonblank() && AboutNodes(i)
    ensures !NodeRaises(Chain(stages, profile), i)
  {
    if i.node in NodeMap(stages) {
      var k := StageAt(stages, i.node);
      PipelineStageIsWellFed(stages, profile, k);
      WellFedRaisesNothing(Chain(stages, profile), i);
    }
  }

  lemma PipelineToolResults(stages: seq<(string, GraphNode)>, profile: Profile, i: Issue)
    requires IsPipeline(stages) && profile.identity.IsNonblank() && AboutToolResults(i)
    ensures !ToolResultRaises(Chain(stages, profile), i)
  {
    var g := Chain(stages, profile);
    forall e | e in g.edges ensures !MisusesToolResult(g, e, i.ToolResultAsGenericDependency?) {
      var j :| 0 <= j < |stages| - 1 && e == ChainEdge(stages, j);
      NodeMapAt(stages, j);
    }
  }

  /** A pipeline has no flow issue: whatever the validator reports is about coverage. */
  lemma PipelineIssues(stages: seq<(string, GraphNode)>, profile: Profile, i: Issue)
    requires IsPipeline(stages) && profile.identity.IsNonblank()
    ensures Raises(Chain(stages, profile), i) <==> AboutCoverage(i) && CoverageRaises(Chain(stages, profile), i)
  {
    var g := Chain(stages, profile);
    PipelineIsWellFormed(stages, profile);
    if AboutNodes(i) {
      PipelineNodeRaisesNothing(stages, profile, i);
    } else if AboutToolResults(i) {
      PipelineToolResults(stages, profile, i);
    } else if AboutEdges(i) || AboutWhole(i) {
      NodeMapAt(stages, 0);
      NodeMapAt(stages, |stages| - 1);
      EndsAndEdges(g, stages[0].0, stages[|stages|-1].0, i);
    }
  }

  /** A well-formed graph with an input and an output has no issue about edges or about the whole. */
  lemma EndsAndEdges(g: ExecutionGraph, input: string, output: string, i: Issue)
    requires WellFormed(g) && IsType(g, input, Input) && IsType(g, output, Output)
    requires AboutEdges(i) || AboutWhole(i)
    ensures !Raises(g, i)
  {
    AllValid(g);
    assert input in OfType(g, Input) && output in OfType(g, Output);
  }

  // ----- the stages of a profile

  predicate Visual(m: Modality) { m in {Image, Video, Multimodal} }
  predicate Audible(m: Modality) { m in {Audio, Multimodal} }
  predicate DeepReasoning(p: Profile) { p.complexity in {High, Deep} }

  function StageId(k: nat): string
    requires k < 9
  {
    match k
    case 0 => "node-input"
    case 1 => "node-preprocess-1"
    case 2 => "node-transform-1"
    case 3 => "node-retrieval-1"
    case 4 => "node-tool-1"
    case 5 => "node-reasoning-1"
    case 6 => "node-reasoning-2"
    case 7 => "node-validation-1"
    case _ => "node-z-output"
  }

  function StageType(k: nat): NodeType
    requires k < 9
  {
    match k
    case 0 => Input
    case 1 => Preprocess
    case 2 => Transform
    case 3 => Retrieve
    case 4 => Tool
    case 5 => Reason
    case 6 => Reason
    case 7 => Validation
    case _ => Output
  }

  /** The profiles the builder accepts. */
  predicate Buildable(p: Profile) { p.capabilities != {} && |p.modalities| == 1 && p.identity.IsNonblank() }

  /** Stages that count as processing; without any, a transform is inserted. */
  predicate Processes(p: Profile)
    requires Buildable(p)
  {
    || Visual(p.modalities[0]) || Audible(p.modalities[0]) || p.modalities[0] == StructuredData
    || Capability.Retrieval in p.capabilities || ToolUse in p.capabilities || CodeExecution in p.capabilities
    || DeepReasoning(p) || Reasoning in p.capabilities
  }

  predicate Present(p: Profile, k: nat)
    requires Buildable(p) && k < 9
  {
    var m, c := p.modalities[0], p.capabilities;
    match k
    case 1 => Visual(m) || Audible(m)
    case 2 => m == StructuredData || !Processes(p)
    case 3 => Capability.Retrieval in c
    case 4 => ToolUse in c || CodeExecution in c
    case 5 => DeepReasoning(p) || Reasoning in c
    case 6 => DeepReasoning(p)
    case 7 => StructuredOutput in c && m != StructuredData
    case _ => true
  }

  function Preferred(c: set<Capability>, preferred: Capability): Capability
    requires c != {}
  {
    if preferred in c then preferred else FirstCapability(c)
  }

  function StageNode(p: Profile, k: nat): (string, GraphNode)
    requires Buildable(p) && k < 9
  {
    var m, c := p.modalities[0], p.capabilities;
    var capability :=
      match k
      case 1 => Preferred(c, if Visual(m) then Vision else Speech)
      case 2 => if m == StructuredData then Preferred(c, StructuredOutput) else FirstCapability(c)
      case 3 => Capability.Retrieval
      case 4 => Preferred(c, CodeExecution)
      case 5 => Preferred(c, Reasoning)
      case 6 => Preferred(c, Reasoning)
      case 7 => StructuredOutput
      case 8 => Preferred(c, Generation)
      case _ => FirstCapability(c);
    (StageId(k), GraphNode(StageType(k), {capability}))
  }

  /** The stages present among the first k, in construction order. */
  function StagesUpTo(p: Profile, k: nat): seq<(string, GraphNode)>
    requires Buildable(p) && k <= 9
  {
    if k == 0 then [] else
    StagesUpTo(p, k - 1) + (if Present(p, k - 1) then [StageNode(p, k - 1)] else [])
  }

  /** The same, leaving out the transform that is inserted for want of any other processing. */
  function ExplicitUpTo(p: Profile, k: nat): seq<(string, GraphNode)>
    requires Buildable(p) && k <= 9
  {
    if k == 0 then [] else
    var here := Present(p, k - 1) && (k - 1 == 2 ==> p.modalities[0] == StructuredData);
    ExplicitUpTo(p, k - 1) + (if here then [StageNode(p, k - 1)] else [])
  }

  lemma {:induction false} ExplicitOrDefault(p: Profile, k: nat)
    requires Buildable(p) && 3 <= k <= 7
    ensures Processes(p) ==> ExplicitUpTo(p, k) == StagesUpTo(p, k)
    ensures !Processes(p) ==> ExplicitUpTo(p, k) + [StageNode(p, 2)] == StagesUpTo(p, k)
  {
    if k > 3 {
      ExplicitOrDefault(p, k - 1);
    } else {
      assert ExplicitUpTo(p, 1) == StagesUpTo(p, 1) == [StageNode(p, 0)];
      assert ExplicitUpTo(p, 2) == StagesUpTo(p, 2);
    }
  }

  lemma LastStages(p: Profile)
    requires Buildable(p)
    ensures StagesUpTo(p, 9) ==
              StagesUpTo(p, 7)
              + (if StructuredOutput in p.capabilities && p.modalities[0] != StructuredData then [StageNode(p, 7)] else [])
              + [StageNode(p, 8)]
  {
    assert StagesUpTo(p, 9) == StagesUpTo(p, 8) + [StageNode(p, 8)];
  }

  method AppendIf(nodes: seq<(string, GraphNode)>, processing: bool, present: bool, stage: (string, GraphNode))
    returns (nodes': seq<(string, GraphNode)>, processing': bool)
    ensures nodes' == nodes + (if present then [stage] else [])
    ensures processing' <==> processing || present
  {
    nodes', processing' := nodes, processing;
    if present {
      nodes', processing' := nodes + [stage], true;
    }
  }

  function Node(id: string, t: NodeType, c: Capability): (string, GraphNode) { (id, GraphNode(t, {c})) }

  /** The stages before reasoning. */
  method CollectInputStages(p: Profile) returns (nodes: seq<(string, GraphNode)>, processing: bool)
    requires Buildable(p)
    ensures nodes == ExplicitUpTo(p, 5)
    ensures processing <==> Present(p, 1) || p.modalities[0] == StructuredData || Present(p, 3) || Present(p, 4)
  {
    var m, c := p.modalities[0], p.capabilities;
    var visual, audible := m in {Image, Video, Multimodal}, m in {Audio, Multimodal};
    nodes, processing := [Node("node-input", Input, FirstCapability(c))], false;
    assert nodes == ExplicitUpTo(p, 1);
    nodes, processing := AppendIf(nodes, processing, visual || audible,
                                  Node("node-preprocess-1", Preprocess, Preferred(c, if visual then Vision else Speech)));
    assert nodes == ExplicitUpTo(p, 2);
    nodes, processing := AppendIf(nodes, processing, m == StructuredData,
                                  Node("node-transform-1", Transform, Preferred(c, StructuredOutput)));
    assert nodes == ExplicitUpTo(p, 3);
    nodes, processing := AppendIf(nodes, processing, Capability.Retrieval in c,
                                  Node("node-retrieval-1", Retrieve, Capability.Retrieval));
    assert nodes == ExplicitUpTo(p, 4);
    nodes, processing := AppendIf(nodes, processing, ToolUse in c || CodeExecution in c,
                                  Node("node-tool-1", Tool, Preferred(c, CodeExecution)));
  }

  /** The stages, appended case by case. */
  method CollectStages(p: Profile) returns (nodes: seq<(string, GraphNode)>)
    requires Buildable(p)
    ensures nodes == StagesUpTo(p, 9)
  {
    var m, c := p.modalities[0], p.capabilities;
    var processing;
    nodes, processing := CollectInputStages(p);
    var reasoningCount := if p.complexity in {High, Deep} then 2 else if Reasoning in c then 1 else 0;
    ghost var soFar := processing;
    for index := 1 to reasoningCount + 1
      invariant nodes == ExplicitUpTo(p, 4 + index)
      invariant processing <==> soFar || index > 1
    {
      var id := if index == 1 then "node-reasoning-1" else "node-reasoning-2";
      nodes, processing := AppendIf(nodes, processing, true, Node(id, Reason, Preferred(c, Reasoning)));
    }
    assert nodes == ExplicitUpTo(p, 7);
    assert processing <==> Processes(p);
    ExplicitOrDefault(p, 7);
    nodes, processing := AppendIf(nodes, processing, !processing, Node("node-transform-1", Transform, FirstCapability(c)));
    assert nodes == StagesUpTo(p, 7);
    nodes, processing := AppendIf(nodes, processing, StructuredOutput in c && m != StructuredData,
                                  Node("node-validation-1", Validation, StructuredOutput));
    nodes := nodes + [Node("node-z-output", Output, Preferred(c, Generation))];
    LastStages(p);
  }

  /** The gate on the pipeline's result, the checks on its profile, and the chain of its stages. */
  method BuildExecutionGraph(a: WorkloadIntelligence.PipelineResult) returns (r: Option<ExecutionGraph>)
    ensures r.Some? <==> WorkloadIntelligence.Complete(a) && Buildable(a.profile.value)
    ensures r.Some? ==> r.value == Chain(StagesUpTo(a.profile.value, 9), a.profile.value)
  {
    if !WorkloadIntelligence.Complete(a) {
      return None;
    }
    var p := a.profile.value;
    if p.capabilities == {} || |p.modalities| != 1 {
      return None;
    }
    var nodes := CollectStages(p);
    StagesArePipeline(p);
    PipelineIsWellFormed(nodes, p);
    assert map[] + NodeMap(nodes) == NodeMap(nodes);
    var edges := ConnectStages(nodes);
    var id := GraphId("graph-" + p.identity.requestId, p.identity);
    r := Construct(id, map[], nodes, edges, Some(p));
  }

  /** An edge from each stage to the next; what a tool hands on is its result. */
  method ConnectStages(nodes: seq<(string, GraphNode)>) returns (edges: set<Edge>)
    requires nodes != []
    ensures edges == ChainEdges(nodes)
  {
    edges := {};
    for i := 0 to |nodes| - 1
      invariant edges == set k | 0 <= k < i :: ChainEdge(nodes, k)
    {
      var dependency := if nodes[i].1.nodeType == Tool then ToolResult else Data;
      var evidence := Evidence("phase2.intelligence", "logical data dependency follows deterministic stage order");
      var edge := Arc(nodes[i].0, nodes[i+1].0, Link(dependency, {evidence}));
      assert edge == ChainEdge(nodes, i);
      assert (set k | 0 <= k < i + 1 :: ChainEdge(nodes, k)) == (set k | 0 <= k < i :: ChainEdge(nodes, k)) + {ChainEdge(nodes, i)};
      edges := edges + {edge};
    }
  }

  lemma StageIdsDiffer(j: nat, k: nat)
    requires j < k < 9
    ensures StageId(j) != StageId(k)
  {}

  lemma {:induction false} StagesAre(p: Profile, k: nat)
    requires Buildable(p) && k <= 9
    ensures Distinct(NodeIds(StagesUpTo(p, k)))
    ensures forall s :: s in StagesUpTo(p, k) <==> exists j :: 0 <= j < k && Present(p, j) && s == StageNode(p, j)
    ensures k > 0 ==> StagesUpTo(p, k) != [] && StagesUpTo(p, k)[0] == StageNode(p, 0)
  {
    if k > 0 {
      StagesAre(p, k - 1);
      var init := StagesUpTo(p, k - 1);
      forall i | 0 <= i < |init| ensures init[i].0 != StageId(k - 1) {
        assert init[i] in init;
        var j :| 0 <= j < k - 1 && Present(p, j) && init[i] == StageNode(p, j);
        StageIdsDiffer(j, k - 1);
      }
      if Present(p, k - 1) {
        assert NodeIds(StagesUpTo(p, k)) == NodeIds(init) + [StageId(k - 1)];
        GraphTransformation.AppendDistinct(NodeIds(init), StageId(k - 1));
      } else {
        assert StagesUpTo(p, k) == init;
      }
    }
  }

  lemma StagesArePipeline(p: Profile)
    requires Buildable(p)
    ensures IsPipeline(StagesUpTo(p, 9))
  {
    StagesAre(p, 8);
    StagesAre(p, 9);
    var stages, init := StagesUpTo(p, 9), StagesUpTo(p, 8);
    assert stages == init + [StageNode(p, 8)];
    forall i | 0 <= i < |init| ensures init[i].1.capabilities != {}
      ensures i > 0 ==> init[i].1.nodeType !in {Input, Output, Aggregate}
    {
      assert init[i] in init;
      assert i > 0 ==> NodeIds(init)[0] != NodeIds(init)[i];
      var j :| 0 <= j < 8 && Present(p, j) && init[i] == StageNode(p, j);
    }
  }

  // ----- what the compiled graph is worth

  lemma StageOfType(p: Profile, t: NodeType)
    requires Buildable(p)
    ensures OfType(Chain(StagesUpTo(p, 9), p), t) != {} <==>
              exists k :: 0 <= k < 9 && Present(p, k) && StageType(k) == t
  {
    var stages := StagesUpTo(p, 9);
    var g := Chain(stages, p);
    StagesAre(p, 9);
    if OfType(g, t) != {} {
      var n :| n in OfType(g, t);
      var i := StageAt(stages, n);
      assert stages[i] in stages;
    }
    if k :| 0 <= k < 9 && Present(p, k) && StageType(k) == t {
      assert StageNode(p, k) in stages;
      var i :| 0 <= i < |stages| && stages[i] == StageNode(p, k);
      NodeMapAt(stages, i);
      assert stages[i].0 in OfType(g, t);
    }
  }

  lemma StagePresent(p: Profile, k: nat)
    requires Buildable(p) && k < 9
    ensures Present(p, k) ==> OfType(Chain(StagesUpTo(p, 9), p), StageType(k)) != {}
    ensures !Present(p, k) && k in {1, 3, 4, 7} ==> OfType(Chain(StagesUpTo(p, 9), p), StageType(k)) == {}
  {
    StageOfType(p, StageType(k));
  }

  /** For every profile the builder accepts: the only issues its graph can have are a structured-data
      workload that must give structured output, and a vision capability without a modality that
      brings preprocessing. */
  lemma BuiltGraphIssues(p: Profile, i: Issue)
    requires Buildable(p)
    ensures Raises(Chain(StagesUpTo(p, 9), p), i) <==>
              || (i == MissingStructuredOutputCoverage && StructuredOutput in p.capabilities && p.modalities[0] == StructuredData)
              || (i == MissingVisionCoverage && Vision in p.capabilities && !Visual(p.modalities[0]) && !Audible(p.modalities[0]))
  {
    StagesArePipeline(p);
    PipelineIssues(StagesUpTo(p, 9), p, i);
    StagePresent(p, 1);
    StagePresent(p, 3);
    StagePresent(p, 4);
    StagePresent(p, 7);
  }

  lemma StageIsNode(p: Profile, k: nat)
    requires Buildable(p) && k < 9 && Present(p, k)
    ensures IsType(Chain(StagesUpTo(p, 9), p), StageId(k), StageType(k))
  {
    var stages := StagesUpTo(p, 9);
    StagesAre(p, 9);
    assert StageNode(p, k) in stages;
    var i :| 0 <= i < |stages| && stages[i] == StageNode(p, k);
    NodeMapAt(stages, i);
  }

  lemma NodeIsStage(p: Profile, n: string) returns (k: nat)
    requires Buildable(p) && n in Chain(StagesUpTo(p, 9), p).nodes
    ensures k < 9 && Present(p, k) && StageNode(p, k) == (n, Chain(StagesUpTo(p, 9), p).nodes[n])
  {
    var stages := StagesUpTo(p, 9);
    StagesAre(p, 9);
    var i := StageAt(stages, n);
    assert stages[i] in stages;
    k :| 0 <= k < 9 && Present(p, k) && stages[i] == StageNode(p, k);
  }

  /** The reasoning nodes of a compiled graph: two for a deep profile, one when reasoning is required. */
  lemma BuiltReasoners(p: Profile)
    requires Buildable(p)
    ensures OfType(Chain(StagesUpTo(p, 9), p), Reason) ==
              if p.complexity == High || p.complexity == Deep then {"node-reasoning-1", "node-reasoning-2"}
              else if Reasoning in p.capabilities then {"node-reasoning-1"} else {}
  {
    var g := Chain(StagesUpTo(p, 9), p);
    forall n | n in OfType(g, Reason) ensures (n == StageId(5) && Present(p, 5)) || (n == StageId(6) && Present(p, 6)) {
      var k := NodeIsStage(p, n);
    }
    if Present(p, 5) { StageIsNode(p, 5); }
    if Present(p, 6) { StageIsNode(p, 6); }
  }

  /** From signals to graph: two reasoning nodes exactly when long context is asked for together with
      tools or references, one exactly when only tools, references or a context are there. */
  lemma InferredReasoners(s: WorkloadIntelligence.Signals)
    requires WorkloadIntelligence.Infer(s).Some? && s.identity.IsNonblank()
    ensures var p := WorkloadIntelligence.Infer(s).value;
            var tools, references := s.toolUse == Some(true) || s.declaredTools != {}, s.contextReferences != {};
            && Buildable(p)
            && |OfType(Chain(StagesUpTo(p, 9), p), Reason)| ==
                 if s.longContext == Some(true) && (tools || references) then 2
                 else if tools || references || s.contextSupplied == Some(true) then 1 else 0
  {
    var p := WorkloadIntelligence.Infer(s).value;
    WorkloadIntelligence.InferredCapabilities(s, p.modalities[0]);
    WorkloadIntelligence.InferredComplexity(s);
    BuiltReasoners(p);
    StageIdsDiffer(5, 6);
  }

  /** A node carries the capability that its type calls for when the profile requires it, and else the
      first that the profile requires. A tool node calls for code execution, never for tool use. */
  lemma BuiltCapabilities(p: Profile, n: string)
    requires Buildable(p) && n in Chain(StagesUpTo(p, 9), p).nodes
    ensures var c, m, node := p.capabilities, p.modalities[0], Chain(StagesUpTo(p, 9), p).nodes[n];
            node.capabilities == {
              match node.nodeType
              case Preprocess => if m == Audio then (if Speech in c then Speech else FirstCapability(c))
                                 else (if Vision in c then Vision else FirstCapability(c))
              case Transform => if m == StructuredData && StructuredOutput in c then StructuredOutput else FirstCapability(c)
              case Retrieve => Capability.Retrieval
              case Tool => if CodeExecution in c then CodeExecution else FirstCapability(c)
              case Reason => if Reasoning in c then Reasoning else FirstCapability(c)
              case Validation => StructuredOutput
              case Output => if Generation in c then Generation else FirstCapability(c)
              case _ => FirstCapability(c)}
    ensures Chain(StagesUpTo(p, 9), p).nodes[n].capabilities <= p.capabilities
  {
    var k := NodeIsStage(p, n);
  }

  /** No tool node of a graph compiled from signals carries the capability of tool use: where tools are
      called for, reasoning is too, which comes first. */
  lemma ToolNodesLackToolUse(s: WorkloadIntelligence.Signals, n: string)
    requires WorkloadIntelligence.Infer(s).Some? && s.identity.IsNonblank()
    requires var p := WorkloadIntelligence.Infer(s).value; Buildable(p) && IsType(Chain(StagesUpTo(p, 9), p), n, Tool)
    ensures var p := WorkloadIntelligence.Infer(s).value;
            ToolUse !in Chain(StagesUpTo(p, 9), p).nodes[n].capabilities
  {
    var p := WorkloadIntelligence.Infer(s).value;
    WorkloadIntelligence.InferredCapabilities(s, p.modalities[0]);
    BuiltCapabilities(p, n);
    var k := NodeIsStage(p, n);
  }

  lemma DeepGraphsHaveTwoReasoners(p: Profile)
    requires Buildable(p) && DeepReasoning(p)
    ensures |OfType(Chain(StagesUpTo(p, 9), p), Reason)| >= 2
  {
    StageIsNode(p, 5);
    StageIsNode(p, 6);
    StageIdsDiffer(5, 6);
    var both := {StageId(5), StageId(6)};
    SubsetSize(both, OfType(Chain(StagesUpTo(p, 9), p), Reason));
  }

  /** Nothing in a compiled graph is left for the rewriter. */
  lemma BuiltGraphIsNormal(p: Profile)
    requires Buildable(p)
    ensures WellFormed(Chain(StagesUpTo(p, 9), p))
    ensures GraphTransformation.NothingApplies(Chain(StagesUpTo(p, 9), p))
  {
    var stages := StagesUpTo(p, 9);
    var g := Chain(stages, p);
    StagesArePipeline(p);
    PipelineIsWellFormed(stages, p);
    forall n | n in g.nodes ensures !GraphTransformation.NeedsAggregate(g, n) {
      var i := StageAt(stages, n);
      ChainNeighbours(stages, i);
    }
    if DeepReasoning(p) {
      DeepGraphsHaveTwoReasoners(p);
    }
  }

  /** Every inferred profile compiles. Its graph passes exactly when the modality is not structured
      data; there, the missing validation node is the one issue. The topological order is the order
      of construction, and a graph that passes is a fixed point of the rewriter. */
  lemma InferredGraphsCompile(s: WorkloadIntelligence.Signals)
    requires WorkloadIntelligence.Infer(s).Some? && s.identity.IsNonblank()
    ensures var p := WorkloadIntelligence.Infer(s).value;
            && Buildable(p)
            && var g := Chain(StagesUpTo(p, 9), p);
               && WellFormed(g)
               && (Passes(g) <==> p.modalities != [StructuredData])
               && (forall i :: Raises(g, i) <==> i == MissingStructuredOutputCoverage && p.modalities == [StructuredData])
               && LeastFirst(g.nodes.Keys, ValidEdges(g)) == NodeIds(StagesUpTo(p, 9))
               && (Passes(g) ==> GraphTransformation.Transform(g) == GraphTransformation.NoOp)
  {
    var p := WorkloadIntelligence.Infer(s).value;
    WorkloadIntelligence.InferredCapabilities(s, p.modalities[0]);
    var g := Chain(StagesUpTo(p, 9), p);
    BuiltGraphIsNormal(p);
    AllValid(g);
    forall i ensures Raises(g, i) <==> i == MissingStructuredOutputCoverage && p.modalities == [StructuredData] {
      BuiltGraphIssues(p, i);
    }
    assert Raises(g, MissingStructuredOutputCoverage) <==> p.modalities == [StructuredData];
    StagesAre(p, 9);
    ChainIsItsOwnOrder(StagesUpTo(p, 9));
  }
}
