/** Logical execution graphs: the node and edge records, and the constructor that admits only
    duplicate-free, closed, acyclic graphs. */
module ExecutionGraphs {
  import opened Digraph
  import opened IntelligenceModels
  import opened Texts
  import CycleDetection

  datatype NodeType =
    | Input | Preprocess | Reason | Retrieve | Tool | Transform | Aggregate | Output | Validation

  datatype Dependency = Data | Control | Context | ToolResult

  datatype Evidence = Evidence(source: string, reason: string)

  /** What an edge carries besides its ends. Parallel edges differ here. */
  datatype Link = Link(dependency: Dependency, evidence: set<Evidence>)

  type Edge = Arc<Link>

  datatype GraphNode = GraphNode(nodeType: NodeType, capabilities: set<Capability>)

  datatype GraphId = GraphId(id: string, workload: WorkloadIdentity)

  datatype ExecutionGraph = ExecutionGraph(
    id: GraphId, nodes: map<string, GraphNode>, edges: set<Edge>, profile: Option<Profile>)

  /** The graph and its workload are named, and the profile is that workload's. */
  predicate Identified(id: GraphId, profile: Option<Profile>) {
    Nonblank(id.id) && id.workload.IsNonblank() && (profile.Some? ==> profile.value.identity == id.workload)
  }

  /** What the constructor guarantees of every graph it returns. */
  ghost predicate WellFormed(g: ExecutionGraph) {
    && g.nodes != map[]
    && Closed(g.nodes.Keys, g.edges)
    && (forall e :: e in g.edges ==> e.src != e.dst)
    && (forall n :: n in g.nodes ==> g.nodes[n].capabilities != {})
    && !Cyclic(g.edges) && Identified(g.id, g.profile)
  }

  function NodeIds(nodes: seq<(string, GraphNode)>): seq<string> {
    seq(|nodes|, i requires 0 <= i < |nodes| => nodes[i].0)
  }

  function NodeMap(nodes: seq<(string, GraphNode)>): (m: map<string, GraphNode>)
    ensures m.Keys == Elements(NodeIds(nodes))
  {
    if nodes == [] then map[] else
    var last := nodes[|nodes|-1];
    assert NodeIds(nodes) == NodeIds(nodes[..|nodes|-1]) + [last.0];
    NodeMap(nodes[..|nodes|-1])[last.0 := last.1]
  }

  /** The constructor, given a list of nodes: `kept`, already known free of repetitions, followed by
      `added`. It returns a well-formed graph, or raises. */
  method Construct(id: GraphId, kept: map<string, GraphNode>, added: seq<(string, GraphNode)>, edges: set<Edge>, profile: Option<Profile>)
    returns (r: Option<ExecutionGraph>)
    requires forall id :: id in kept ==> kept[id].capabilities != {}
    requires forall n :: n in added ==> n.1.capabilities != {}
    ensures r.Some? <==> && Distinct(NodeIds(added)) && Elements(NodeIds(added)) !! kept.Keys
                         && WellFormed(ExecutionGraph(id, kept + NodeMap(added), edges, profile))
    ensures r.Some? ==> r.value == ExecutionGraph(id, kept + NodeMap(added), edges, profile)
  {
    var byId := kept + NodeMap(added);
    NodeMapValues(added);
    MergedSize(kept, added);
    if |byId| != |kept| + |added| {
      return None;
    }
    r := Assemble(id, byId, edges, profile);
  }

  method CheckIdentity(id: GraphId, profile: Option<Profile>) returns (ok: bool)
    ensures ok <==> Identified(id, profile)
  {
    var w := id.workload;
    if !Nonblank(id.id) || !Nonblank(w.requestId) || !Nonblank(w.workloadId) || !Nonblank(w.sessionId) {
      return false;
    }
    if profile.Some? {
      var p := profile.value.identity;
      if (p.requestId, p.workloadId, p.sessionId) != (w.requestId, w.workloadId, w.sessionId) {
        return false;
      }
    }
    return true;
  }

  /** The checks on the edges, the nodes being known to be free of repetitions. */
  method Assemble(id: GraphId, byId: map<string, GraphNode>, edges: set<Edge>, profile: Option<Profile>) returns (r: Option<ExecutionGraph>)
    requires forall id :: id in byId ==> byId[id].capabilities != {}
    ensures r.Some? <==> WellFormed(ExecutionGraph(id, byId, edges, profile))
    ensures r.Some? ==> r.value == ExecutionGraph(id, byId, edges, profile)
  {
    if byId == map[] {
      return None;
    }
    var identified := CheckIdentity(id, profile);
    if !identified {
      return None;
    }
    var todo := edges;
    while todo != {}
      invariant todo <= edges
      invariant forall e :: e in edges - todo ==> e.src in byId && e.dst in byId && e.src != e.dst
      decreases todo
    {
      var e :| e in todo;
      if e.src !in byId || e.dst !in byId || e.src == e.dst {
        return None;
      }
      todo := todo - {e};
    }
    var cyclic := CycleDetection.ContainsCycle(byId.Keys, edges);
    return if cyclic then None else Some(ExecutionGraph(id, byId, edges, profile));
  }

  lemma MergedSize(kept: map<string, GraphNode>, added: seq<(string, GraphNode)>)
    ensures |kept + NodeMap(added)| == |kept| + |added| <==>
              Distinct(NodeIds(added)) && Elements(NodeIds(added)) !! kept.Keys
  {
    UnionSize(kept.Keys, NodeIds(added));
    assert (kept + NodeMap(added)).Keys == kept.Keys + Elements(NodeIds(added));
  }

  lemma UnionSize(s: set<string>, q: seq<string>)
    ensures |s + Elements(q)| == |s| + |q| <==> Distinct(q) && Elements(q) !! s
  {
    DistinctSize(q);
    assert s + Elements(q) == s + (Elements(q) - s);
    assert Elements(q) == (Elements(q) - s) + (Elements(q) * s);
    assert |Elements(q)| == |Elements(q) - s| + |Elements(q) * s|;
  }

  lemma {:induction false} NodeMapValues(nodes: seq<(string, GraphNode)>)
    requires forall n :: n in nodes ==> n.1.capabilities != {}
    ensures forall id :: id in NodeMap(nodes) ==> NodeMap(nodes)[id].capabilities != {}
    ensures nodes == [] <==> NodeMap(nodes) == map[]
  {
    if nodes != [] {
      NodeMapValues(nodes[..|nodes|-1]);
      assert nodes[|nodes|-1] in nodes;
      assert nodes[|nodes|-1].0 in NodeMap(nodes);
    }
  }

  // ----- vocabulary of the validator

  predicate IsType(g: ExecutionGraph, n: string, t: NodeType) {
    n in g.nodes && g.nodes[n].nodeType == t
  }

  function OfType(g: ExecutionGraph, t: NodeType): set<string> {
    set n | n in g.nodes && g.nodes[n].nodeType == t
  }

  /** Dependencies that carry data of some kind. */
  predicate DataLike(e: Edge) {
    e.tag.dependency in {Data, Context, ToolResult}
  }

  /** The edges that join two different declared nodes. */
  function ValidEdges(g: ExecutionGraph): set<Edge> {
    set e | e in g.edges && e.src in g.nodes && e.dst in g.nodes && e.src != e.dst
  }

  function DataInputs(edges: set<Edge>, n: string): set<Edge> {
    set e | e in edges && e.dst == n && DataLike(e)
  }
}
