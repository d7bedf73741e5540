/** The read-only validator of logical data flow. `Raises` says, issue by issue, when the validator
    reports it; the methods compute exactly that set. */
module GraphValidation {
  import opened Orders
  import opened Digraph
  import opened ExecutionGraphs
  import opened IntelligenceModels
  import CycleDetection
  import Reachability

  datatype Issue =
    | DanglingEdgeSource(src: string, dst: string)
    | DanglingEdgeTarget(src: string, dst: string)
    | SelfEdge(src: string, dst: string)
    | CycleFound
    | MissingInput
    | MissingOutput
    | InputHasDependency(node: string)
    | OutputHasDownstreamFlow(node: string)
    | OutputWithoutFinalResult(node: string)
    | OrphanNode(node: string)
    | ProcessingCannotReachOutput(node: string)
    | NodeWithoutUpstreamData(node: string)
    | AggregateMissingInputs(node: string)
    | UnusedSpecializedNode(node: string)
    | InvalidToolResultProducer(src: string, dst: string)
    | ToolResultAsGenericDependency(src: string, dst: string)
    | MissingRetrievalCoverage
    | MissingToolCoverage
    | MissingStructuredOutputCoverage
    | MissingVisionCoverage

  ghost predicate FromInput(g: ExecutionGraph, n: string) {
    exists s :: IsType(g, s, Input) && Reach(ValidEdges(g), s, n)
  }

  ghost predicate ToOutput(g: ExecutionGraph, n: string) {
    exists s :: IsType(g, s, Output) && Reach(ValidEdges(g), n, s)
  }

  predicate Requires(g: ExecutionGraph, c: Capability) {
    g.profile.Some? && c in g.profile.value.capabilities
  }

  predicate HasEdge(g: ExecutionGraph, src: string, dst: string) {
    exists e :: e in g.edges && e.src == src && e.dst == dst
  }

  /** A valid edge whose dependency is, or is not, a tool result, from a node that is not, or is,
      a tool. */
  predicate MisusesToolResult(g: ExecutionGraph, e: Edge, fromTool: bool) {
    e in ValidEdges(g) && IsType(g, e.src, Tool) == fromTool && (e.tag.dependency == ToolResult) != fromTool
  }

  predicate AboutEdges(i: Issue) {
    i.DanglingEdgeSource? || i.DanglingEdgeTarget? || i.SelfEdge?
  }

  predicate AboutNodes(i: Issue) {
    || i.InputHasDependency? || i.OutputHasDownstreamFlow? || i.OutputWithoutFinalResult? || i.OrphanNode?
    || i.ProcessingCannotReachOutput? || i.NodeWithoutUpstreamData? || i.AggregateMissingInputs?
    || i.UnusedSpecializedNode?
  }

  predicate AboutToolResults(i: Issue) {
    i.InvalidToolResultProducer? || i.ToolResultAsGenericDependency?
  }

  predicate AboutCoverage(i: Issue) {
    || i.MissingRetrievalCoverage? || i.MissingToolCoverage? || i.MissingStructuredOutputCoverage?
    || i.MissingVisionCoverage?
  }

  predicate AboutWhole(i: Issue) {
    i.CycleFound? || i.MissingInput? || i.MissingOutput?
  }

  predicate EdgeRaises(g: ExecutionGraph, i: Issue)
    requires AboutEdges(i)
  {
    match i
    case DanglingEdgeSource(src, dst) => HasEdge(g, src, dst) && src !in g.nodes
    case DanglingEdgeTarget(src, dst) => HasEdge(g, src, dst) && src in g.nodes && dst !in g.nodes
    case SelfEdge(src, dst) => HasEdge(g, src, dst) && src in g.nodes && src == dst
  }

  ghost predicate NodeRaises(g: ExecutionGraph, i: Issue)
    requires AboutNodes(i)
  {
    var edges := ValidEdges(g);
    && i.node in g.nodes
    && var t := g.nodes[i.node].nodeType;
       match i
       case InputHasDependency(n) => t == Input && CycleDetection.In(edges, n) != {}
       case OutputHasDownstreamFlow(n) => t == Output && CycleDetection.Out(edges, n) != {}
       case OutputWithoutFinalResult(n) => t == Output && DataInputs(edges, n) == {}
       case OrphanNode(n) => t != Input && t != Output && !FromInput(g, n)
       case ProcessingCannotReachOutput(n) => t != Input && t != Output && !ToOutput(g, n)
       case NodeWithoutUpstreamData(n) => t in {Preprocess, Transform, Validation} && DataInputs(edges, n) == {}
       case AggregateMissingInputs(n) => t == Aggregate && |DataInputs(edges, n)| < 2
       case UnusedSpecializedNode(n) => t in {Retrieve, Tool} && CycleDetection.Out(edges, n) == {}
  }

  ghost predicate ToolResultRaises(g: ExecutionGraph, i: Issue)
    requires AboutToolResults(i)
  {
    exists e :: MisusesToolResult(g, e, i.ToolResultAsGenericDependency?) && e.src == i.src && e.dst == i.dst
  }

  predicate CoverageRaises(g: ExecutionGraph, i: Issue)
    requires AboutCoverage(i)
  {
    match i
    case MissingRetrievalCoverage => Requires(g, Capability.Retrieval) && OfType(g, Retrieve) == {}
    case MissingToolCoverage => (Requires(g, ToolUse) || Requires(g, CodeExecution)) && OfType(g, Tool) == {}
    case MissingStructuredOutputCoverage => Requires(g, StructuredOutput) && OfType(g, Validation) == {}
    case MissingVisionCoverage => Requires(g, Vision) && OfType(g, Preprocess) == {}
  }

  ghost predicate WholeRaises(g: ExecutionGraph, i: Issue)
    requires AboutWhole(i)
  {
    match i
    case CycleFound => Cyclic(ValidEdges(g))
    case MissingInput => OfType(g, Input) == {}
    case MissingOutput => OfType(g, Output) == {}
  }

  /** The validator reports issue i of graph g. */
  ghost predicate Raises(g: ExecutionGraph, i: Issue) {
    if AboutEdges(i) then EdgeRaises(g, i)
    else if AboutNodes(i) then NodeRaises(g, i)
    else if AboutToolResults(i) then ToolResultRaises(g, i)
    else if AboutCoverage(i) then CoverageRaises(g, i)
    else WholeRaises(g, i)
  }

  /** The status PASS. */
  ghost predicate Passes(g: ExecutionGraph) {
    forall i :: !Raises(g, i)
  }

  datatype ValidationResult = ValidationResult(passed: bool, issues: set<Issue>, order: seq<string>)

  // ----- the checks, in the order the validator makes them

  method CheckEdge(g: ExecutionGraph, e: Edge) returns (valid: bool, issues: set<Issue>)
    requires e in g.edges
    ensures valid <==> e in ValidEdges(g)
    ensures issues == EdgeIssues(g, e)
  {
    if e.src !in g.nodes {
      return false, {DanglingEdgeSource(e.src, e.dst)};
    }
    if e.dst !in g.nodes {
      return false, {DanglingEdgeTarget(e.src, e.dst)};
    }
    if e.src == e.dst {
      return false, {SelfEdge(e.src, e.dst)};
    }
    return true, {};
  }

  function EdgeIssues(g: ExecutionGraph, e: Edge): set<Issue> {
    if e.src !in g.nodes then {DanglingEdgeSource(e.src, e.dst)}
    else if e.dst !in g.nodes then {DanglingEdgeTarget(e.src, e.dst)}
    else if e.src == e.dst then {SelfEdge(e.src, e.dst)}
    else {}
  }

  method CheckEdges(g: ExecutionGraph) returns (valid: set<Edge>, issues: set<Issue>)
    ensures valid == ValidEdges(g)
    ensures forall i :: i in issues <==> AboutEdges(i) && EdgeRaises(g, i)
  {
    valid, issues := {}, {};
    var todo := g.edges;
    while todo != {}
      invariant todo <= g.edges
      invariant valid == ValidEdges(g) - todo
      invariant issues == (set e, i | e in g.edges - todo && i in EdgeIssues(g, e) :: i)
      decreases todo
    {
      var e :| e in todo;
      todo := todo - {e};
      var ok, found := CheckEdge(g, e);
      if ok { valid := valid + {e}; }
      issues := issues + found;
    }
    forall i ensures i in issues <==> AboutEdges(i) && EdgeRaises(g, i) {
      if AboutEdges(i) && EdgeRaises(g, i) {
        var e :| e in g.edges && e.src == i.src && e.dst == i.dst;
        assert i in EdgeIssues(g, e);
      }
    }
  }

  function When(condition: bool, i: Issue): (s: set<Issue>)
    ensures forall j :: j in s <==> condition && j == i
  {
    if condition then {i} else {}
  }

  /** The checks of an INPUT or OUTPUT node. */
  method CheckBoundary(g: ExecutionGraph, edges: set<Edge>, n: string) returns (issues: set<Issue>)
    requires n in g.nodes && edges == ValidEdges(g)
    ensures forall i :: i in issues <==>
              (i.InputHasDependency? || i.OutputHasDownstreamFlow? || i.OutputWithoutFinalResult?)
              && i.node == n && NodeRaises(g, i)
  {
    var t := g.nodes[n].nodeType;
    issues := When(t == Input && CycleDetection.In(edges, n) != {}, InputHasDependency(n));
    issues := issues + When(t == Output && CycleDetection.Out(edges, n) != {}, OutputHasDownstreamFlow(n));
    issues := issues + When(t == Output && DataInputs(edges, n) == {}, OutputWithoutFinalResult(n));
  }

  /** The two reachability checks of a node in between. */
  method CheckFlow(g: ExecutionGraph, n: string, fromInput: set<string>, toOutput: set<string>) returns (issues: set<Issue>)
    requires n in g.nodes
    requires n in fromInput <==> FromInput(g, n)
    requires n in toOutput <==> ToOutput(g, n)
    ensures forall i :: i in issues <==>
              (i.OrphanNode? || i.ProcessingCannotReachOutput?) && i.node == n && NodeRaises(g, i)
  {
    var t := g.nodes[n].nodeType;
    issues := When(t != Input && t != Output && n !in fromInput, OrphanNode(n));
    issues := issues + When(t != Input && t != Output && n !in toOutput, ProcessingCannotReachOutput(n));
  }

  /** The checks on the edges that a node of a particular type must have. */
  method CheckNeeds(g: ExecutionGraph, edges: set<Edge>, n: string) returns (issues: set<Issue>)
    requires n in g.nodes && edges == ValidEdges(g)
    ensures forall i :: i in issues <==>
              (i.NodeWithoutUpstreamData? || i.AggregateMissingInputs? || i.UnusedSpecializedNode?)
              && i.node == n && NodeRaises(g, i)
  {
    var t := g.nodes[n].nodeType;
    issues := When(t in {Preprocess, Transform, Validation} && DataInputs(edges, n) == {}, NodeWithoutUpstreamData(n));
    issues := issues + When(t == Aggregate && |DataInputs(edges, n)| < 2, AggregateMissingInputs(n));
    issues := issues + When(t in {Retrieve, Tool} && CycleDetection.Out(edges, n) == {}, UnusedSpecializedNode(n));
  }

  method CheckNodes(g: ExecutionGraph, edges: set<Edge>) returns (issues: set<Issue>)
    requires edges == ValidEdges(g)
    ensures forall i :: i in issues <==> AboutNodes(i) && NodeRaises(g, i)
  {
    var fromInput := Reachability.Reachable(g.nodes.Keys, OfType(g, Input), edges, true);
    var toOutput := Reachability.Reachable(g.nodes.Keys, OfType(g, Output), edges, false);
    ReachableSets(g, fromInput, toOutput);
    issues := {};
    var todo := g.nodes.Keys;
    while todo != {}
      invariant todo <= g.nodes.Keys
      invariant forall i :: i in issues <==> AboutNodes(i) && i.node in g.nodes.Keys - todo && NodeRaises(g, i)
      decreases todo
    {
      var n :| n in todo;
      var atBoundary := CheckBoundary(g, edges, n);
      var flow := CheckFlow(g, n, fromInput, toOutput);
      var needs := CheckNeeds(g, edges, n);
      todo := todo - {n};
      issues := issues + atBoundary + flow + needs;
    }
  }

  lemma ReachableSets(g: ExecutionGraph, fromInput: set<string>, toOutput: set<string>)
    requires forall b :: b in fromInput <==>
               Reachability.JoinedToAny(ValidEdges(g), true, OfType(g, Input), b)
    requires forall b :: b in toOutput <==>
               Reachability.JoinedToAny(ValidEdges(g), false, OfType(g, Output), b)
    ensures forall n :: n in fromInput <==> FromInput(g, n)
    ensures forall n :: n in toOutput <==> ToOutput(g, n)
  {
    forall n ensures n in fromInput <==> FromInput(g, n) {
      if FromInput(g, n) {
        var s :| IsType(g, s, Input) && Reach(ValidEdges(g), s, n);
        assert s in OfType(g, Input) && Reachability.Joined(ValidEdges(g), true, s, n);
      }
    }
    forall n ensures n in toOutput <==> ToOutput(g, n) {
      if ToOutput(g, n) {
        var s :| IsType(g, s, Output) && Reach(ValidEdges(g), n, s);
        assert s in OfType(g, Output) && Reachability.Joined(ValidEdges(g), false, s, n);
      }
    }
  }

  method CheckToolResults(g: ExecutionGraph, edges: set<Edge>) returns (issues: set<Issue>)
    requires edges == ValidEdges(g)
    ensures forall i :: i in issues <==> AboutToolResults(i) && ToolResultRaises(g, i)
  {
    issues := {};
    var todo := edges;
    while todo != {}
      invariant todo <= edges
      invariant forall i :: i in issues <==> (AboutToolResults(i) &&
                  exists e :: e in edges - todo && MisusesToolResult(g, e, i.ToolResultAsGenericDependency?) &&
                              e.src == i.src && e.dst == i.dst)
      decreases todo
    {
      var e :| e in todo;
      todo := todo - {e};
      if e.tag.dependency == ToolResult && g.nodes[e.src].nodeType != Tool {
        issues := issues + {InvalidToolResultProducer(e.src, e.dst)};
      }
      if g.nodes[e.src].nodeType == Tool && e.tag.dependency != ToolResult {
        issues := issues + {ToolResultAsGenericDependency(e.src, e.dst)};
      }
    }
  }

  method CheckCoverage(g: ExecutionGraph) returns (issues: set<Issue>)
    ensures forall i :: i in issues <==> AboutCoverage(i) && CoverageRaises(g, i)
  {
    issues := {};
    if g.profile.None? {
      return;
    }
    var capabilities := g.profile.value.capabilities;
    if Capability.Retrieval in capabilities && OfType(g, Retrieve) == {} {
      issues := issues + {MissingRetrievalCoverage};
    }
    if (ToolUse in capabilities || CodeExecution in capabilities) && OfType(g, Tool) == {} {
      issues := issues + {MissingToolCoverage};
    }
    if StructuredOutput in capabilities && OfType(g, Validation) == {} {
      issues := issues + {MissingStructuredOutputCoverage};
    }
    if Vision in capabilities && OfType(g, Preprocess) == {} {
      issues := issues + {MissingVisionCoverage};
    }
  }

  method CheckWhole(g: ExecutionGraph, edges: set<Edge>) returns (order: seq<string>, issues: set<Issue>)
    requires edges == ValidEdges(g)
    ensures order == LeastFirst(g.nodes.Keys, edges)
    ensures forall i :: i in issues <==> AboutWhole(i) && WholeRaises(g, i)
  {
    var cyclic;
    order, cyclic := CycleDetection.TopologicalOrder(g.nodes.Keys, edges);
    issues := When(cyclic, CycleFound);
    issues := issues + When(OfType(g, Input) == {}, MissingInput);
    issues := issues + When(OfType(g, Output) == {}, MissingOutput);
  }

  lemma RaisesByKind(g: ExecutionGraph, i: Issue)
    ensures Raises(g, i) <==>
              || (AboutEdges(i) && EdgeRaises(g, i)) || (AboutWhole(i) && WholeRaises(g, i))
              || (AboutNodes(i) && NodeRaises(g, i)) || (AboutToolResults(i) && ToolResultRaises(g, i))
              || (AboutCoverage(i) && CoverageRaises(g, i))
  {}

  /** The validator reports exactly the issues that `Raises` describes, passes exactly when there are
      none, and returns the least-first order of the valid edges. */
  method ValidateExecutionGraph(g: ExecutionGraph) returns (r: ValidationResult)
    ensures forall i :: i in r.issues <==> Raises(g, i)
    ensures r.passed <==> Passes(g)
    ensures r.order == LeastFirst(g.nodes.Keys, ValidEdges(g))
  {
    var edges, ofEdges := CheckEdges(g);
    var order, ofWhole := CheckWhole(g, edges);
    var ofNodes := CheckNodes(g, edges);
    var ofTools := CheckToolResults(g, edges);
    var ofCoverage := CheckCoverage(g);
    var issues := ofEdges + ofWhole + ofNodes + ofTools + ofCoverage;
    forall i ensures i in issues <==> Raises(g, i) {
      RaisesByKind(g, i);
    }
    r := ValidationResult(issues == {}, issues, order);
  }

  lemma AllValid(g: ExecutionGraph)
    requires WellFormed(g)
    ensures ValidEdges(g) == g.edges
  {}

  lemma ProcessingFlows(g: ExecutionGraph, n: string)
    requires WellFormed(g) && Passes(g) && n in g.nodes
    requires !IsType(g, n, Input) && !IsType(g, n, Output)
    ensures FromInput(g, n) && ToOutput(g, n)
  {
    assert !Raises(g, OrphanNode(n));
    assert !Raises(g, ProcessingCannotReachOutput(n));
  }

  /** What PASS means for the flow of a constructed graph: an input leads to every node, and every
      node other than an input leads to an output. */
  lemma PassingGraphFlows(g: ExecutionGraph, n: string)
    requires WellFormed(g) && Passes(g) && n in g.nodes
    ensures FromInput(g, n)
    ensures !IsType(g, n, Input) ==> ToOutput(g, n)
  {
    ReachSelf(ValidEdges(g), n);
    if IsType(g, n, Output) {
      assert !Raises(g, OutputWithoutFinalResult(n));
      var e :| e in DataInputs(ValidEdges(g), n);
      ReachArc(ValidEdges(g), e.src, n);
      assert e in CycleDetection.Out(ValidEdges(g), e.src);
      assert !Raises(g, OutputHasDownstreamFlow(e.src));
      if !IsType(g, e.src, Input) {
        ProcessingFlows(g, e.src);
        var s :| IsType(g, s, Input) && Reach(ValidEdges(g), s, e.src);
        ReachTransitive(ValidEdges(g), s, e.src, n);
      }
    } else if !IsType(g, n, Input) {
      ProcessingFlows(g, n);
    }
  }
}
