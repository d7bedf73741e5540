/** A graph at which the revalidation of a rewrite raises, and a request whose compiled graph fails
    validation. */
module GraphCases {
  import opened Orders
  import opened Digraph
  import opened ExecutionGraphs
  import opened GraphValidation
  import opened GraphTransformation
  import opened IntelligenceModels
  import opened Texts
  import CD = CycleDetection
  import GraphBuilder
  import GT = GraphTransformation
  import WI = WorkloadIntelligence

  // ----- an aggregation target with one data-carrying input of two

  function Carries(d: Dependency): Link { Link(d, {Evidence("e", "r")}) }

  function UnderfedEdges(i: string, t: string, o: string): set<Edge> {
    {Arc(i, t, Carries(Data)), Arc(i, t, Carries(Control)), Arc(t, o, Carries(Data))}
  }

  /** INPUT to TRANSFORM by a DATA and a CONTROL edge, TRANSFORM to OUTPUT; no profile. */
  function UnderfedGraph(i: string, t: string, o: string): ExecutionGraph {
    ExecutionGraph(GraphId("g", WorkloadIdentity("r", "w", "s")),
      map[i := GraphNode(Input, {Generation}), t := GraphNode(NodeType.Transform, {Generation}), o := GraphNode(Output, {Generation})],
      UnderfedEdges(i, t, o), None)
  }

  predicate Apart(i: string, t: string, o: string) {
    i != t && t != o && i != o && AggregateId(t) != i && AggregateId(t) != o
  }

  lemma UnderfedNeighbours(i: string, t: string, o: string)
    requires Apart(i, t, o)
    ensures var edges := UnderfedEdges(i, t, o);
            && CD.In(edges, i) == {} && CD.Out(edges, o) == {}
            && CD.In(edges, t) == {Arc(i, t, Carries(Data)), Arc(i, t, Carries(Control))}
            && CD.In(edges, o) == CD.Out(edges, t) == {Arc(t, o, Carries(Data))}
            && CD.Out(edges, i) == CD.In(edges, t)
            && DataInputs(edges, t) == {Arc(i, t, Carries(Data))} && DataInputs(edges, o) == {Arc(t, o, Carries(Data))}
  {}

  lemma UnderfedIsWellFormed(i: string, t: string, o: string)
    requires Apart(i, t, o)
    ensures WellFormed(UnderfedGraph(i, t, o)) && ValidEdges(UnderfedGraph(i, t, o)) == UnderfedEdges(i, t, o)
  {
    var g := UnderfedGraph(i, t, o);
    NonblankHead("g");
    NonblankHead("r");
    NonblankHead("w");
    NonblankHead("s");
    assert i in g.nodes && Generation in {Generation};
    RankedIsAcyclic(g.edges, x => if x == i then 0 else if x == t then 1 else 2);
    AllValid(g);
  }

  lemma UnderfedFlows(i: string, t: string, o: string, n: string)
    requires Apart(i, t, o) && (n == i || n == t || n == o)
    ensures FromInput(UnderfedGraph(i, t, o), n) && ToOutput(UnderfedGraph(i, t, o), n)
  {
    var g, edges := UnderfedGraph(i, t, o), UnderfedEdges(i, t, o);
    UnderfedIsWellFormed(i, t, o);
    assert Arc(i, t, Carries(Data)) in edges && Arc(t, o, Carries(Data)) in edges;
    ReachSelf(edges, i);
    ReachSelf(edges, t);
    ReachSelf(edges, o);
    ReachArc(edges, i, t);
    ReachArc(edges, t, o);
    ReachTransitive(edges, i, t, o);
    assert IsType(g, i, Input) && IsType(g, o, Output);
  }

  lemma UnderfedNodes(i: string, t: string, o: string, issue: Issue)
    requires Apart(i, t, o) && AboutNodes(issue)
    ensures !NodeRaises(UnderfedGraph(i, t, o), issue)
  {
    var g := UnderfedGraph(i, t, o);
    if issue.node in g.nodes {
      UnderfedIsWellFormed(i, t, o);
      UnderfedNeighbours(i, t, o);
      UnderfedFlows(i, t, o, issue.node);
      GraphBuilder.WellFedRaisesNothing(g, issue);
    }
  }

  lemma UnderfedPasses(i: string, t: string, o: string)
    requires Apart(i, t, o)
    ensures Passes(UnderfedGraph(i, t, o))
  {
    var g := UnderfedGraph(i, t, o);
    UnderfedIsWellFormed(i, t, o);
    forall issue ensures !Raises(g, issue) {
      if AboutNodes(issue) {
        UnderfedNodes(i, t, o, issue);
      } else if AboutEdges(issue) || AboutWhole(issue) {
        GraphBuilder.EndsAndEdges(g, i, o, issue);
      }
    }
  }

  lemma UnderfedTarget(i: string, t: string, o: string)
    requires Apart(i, t, o)
    ensures var g := UnderfedGraph(i, t, o); Targets(g) == {t} && Least(Targets(g)) == t && |DataInputs(g.edges, t)| == 1
  {
    var g := UnderfedGraph(i, t, o);
    UnderfedNeighbours(i, t, o);
    assert Arc(i, t, Carries(Data)) != Arc(i, t, Carries(Control));
    assert |AggregateId(t)| != |t|;
    assert NeedsAggregate(g, t);
    assert |CD.In(g.edges, o)| == 1 && |CD.In(g.edges, i)| == 0;
    assert Targets(g) == {t};
    assert Least(Targets(g)) in Targets(g);
  }

  /** The graph passes and a rewrite applies to it, but rewriting it raises. */
  lemma RevalidationIsReached()
    ensures var g := UnderfedGraph("i", "t", "o");
            WellFormed(g) && Passes(g) && !NothingApplies(g) && GT.Transform(g) == GT.Outcome.Raised
  {
    var i, t, o := "i", "t", "o";
    assert i[0] == 'i' && t[0] == 't' && o[0] == 'o' && |AggregateId(t)| > 1;
    UnderfedIsWellFormed(i, t, o);
    UnderfedPasses(i, t, o);
    UnderfedTarget(i, t, o);
    UnderfedRaises(UnderfedGraph(i, t, o), t);
  }

  lemma UnderfedRaises(g: ExecutionGraph, t: string)
    requires WellFormed(g) && Passes(g) && !Decomposes(g)
    requires Targets(g) == {t} && Least(Targets(g)) == t && |DataInputs(g.edges, t)| == 1
    ensures !NothingApplies(g) && GT.Transform(g) == GT.Outcome.Raised
  {
    TransformSucceedsExactly(g);
  }

  // ----- a structured-data request

  function StructuredRequest(): WI.Request {
    WI.Request(WorkloadIdentity("r", "w", "s"), "t", map["structured_data" := WI.Str("x")], map[], [])
  }

  lemma StructuredSignals()
    ensures WI.ExtractSignals(StructuredRequest()).Some?
    ensures WI.ExtractSignals(StructuredRequest()).value.modalities == {"structured_data"}
    ensures WI.ExtractSignals(StructuredRequest()).value.privacy == None
  {
    var r := StructuredRequest();
    assert "structured_data" in WI.MODALITY_KEYS && WI.MODALITY_KEYS["structured_data"] == "structured_data";
    assert WI.Lookup(r.input, "structured_data") != WI.Null;
    forall k | k in WI.MODALITY_KEYS && WI.Lookup(r.input, k) != WI.Null ensures k == "structured_data" {}
    assert "t" != "code";
  }

  lemma StructuredModality(s: WI.Signals)
    requires s.modalities == {"structured_data"}
    ensures WI.ModalityOf(s) == Some(StructuredData)
  {
    assert |"structured_data"| == 15;
    forall w | w in {"text", "image", "audio", "video"} ensures s.modalities != {w} {
      assert w in {w} && w !in s.modalities;
    }
  }

  /** The request is inferred to be of structured data, it compiles, and its graph fails validation for
      want of a VALIDATION node alone. */
  lemma StructuredGraphFails()
    ensures var s := WI.ExtractSignals(StructuredRequest());
            && s.Some? && WI.Infer(s.value).Some?
            && var p := WI.Infer(s.value).value;
               && GraphBuilder.Buildable(p) && p.modalities == [StructuredData]
               && var g := GraphBuilder.Chain(GraphBuilder.StagesUpTo(p, 9), p);
                  WellFormed(g) && forall i :: Raises(g, i) <==> i == MissingStructuredOutputCoverage
  {
    StructuredSignals();
    var s := WI.ExtractSignals(StructuredRequest()).value;
    StructuredModality(s);
    NonblankHead("r");
    NonblankHead("w");
    NonblankHead("s");
    assert s.identity == WorkloadIdentity("r", "w", "s");
    GraphBuilder.InferredGraphsCompile(s);
  }
}
