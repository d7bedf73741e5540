/** The controlled rewrites of validated graphs: splitting the one reasoning node of a deep workload,
    and putting an aggregate in front of the first target with several inputs. */
module GraphTransformation {
  import opened Orders
  import opened Digraph
  import opened NodeExpansion
  import opened ExecutionGraphs
  import opened GraphValidation
  import opened IntelligenceModels
  import CD = CycleDetection
  import opened Sets

  // ----- the two rewrites are expansions of one node

  function Expanded(g: ExecutionGraph, s: Expansion<Link>, entry: GraphNode, exit: GraphNode): ExecutionGraph {
    ExecutionGraph(g.id, (g.nodes - {s.x})[s.entry := entry][s.exit := exit], Expand(g.edges, s), g.profile)
  }

  /** What both rewrites satisfy: the entry is a reasoning stage or an aggregate, the exit plays the
      role of the node it replaces, and the bridge carries data. */
  predicate Rewrites(g: ExecutionGraph, s: Expansion<Link>, entry: GraphNode, exit: GraphNode) {
    && Fresh(g.nodes.Keys, s)
    && entry.nodeType in {Reason, Aggregate}
    && exit == g.nodes[s.x] && exit.nodeType !in {Input, Aggregate}
    && entry.capabilities != {}
    && s.bridge.dependency == Data
  }

  lemma RewriteIsWellFormed(g: ExecutionGraph, s: Expansion<Link>, entry: GraphNode, exit: GraphNode)
    requires WellFormed(g) && Rewrites(g, s, entry, exit)
    ensures WellFormed(Expanded(g, s, entry, exit))
    ensures Expanded(g, s, entry, exit).nodes.Keys == ExpandNodes(g.nodes.Keys, s.x, s.entry, s.exit)
  {
    var g' := Expanded(g, s, entry, exit);
    assert g'.nodes.Keys == ExpandNodes(g.nodes.Keys, s.x, s.entry, s.exit);
    StaysClosed(g.nodes.Keys, g.edges, s);
    CyclesPreserved(g.nodes.Keys, g.edges, s);
  }

  /** A node of the rewritten graph is the entry, or stands where an old node stood. */
  lemma OldOrEntry(g: ExecutionGraph, s: Expansion<Link>, entry: GraphNode, exit: GraphNode, n: string) returns (old_: string)
    requires WellFormed(g) && Rewrites(g, s, entry, exit)
    requires n in Expanded(g, s, entry, exit).nodes && n != s.entry
    ensures old_ in g.nodes && n == s.OutOf(old_)
    ensures Expanded(g, s, entry, exit).nodes[n] == g.nodes[old_]
  {
    old_ := s.Back(n);
  }

  lemma InflowIsKept(g: ExecutionGraph, s: Expansion<Link>, entry: GraphNode, exit: GraphNode, n: string)
    requires WellFormed(g) && Passes(g) && Rewrites(g, s, entry, exit) && n in g.nodes
    ensures FromInput(Expanded(g, s, entry, exit), s.Into(n))
    ensures FromInput(Expanded(g, s, entry, exit), s.OutOf(n))
  {
    var g' := Expanded(g, s, entry, exit);
    RewriteIsWellFormed(g, s, entry, exit);
    AllValid(g); AllValid(g');
    PassingGraphFlows(g, n);
    var i :| IsType(g, i, Input) && Reach(g.edges, i, n);
    assert IsType(g', i, Input);
    ReachPreserved(g.nodes.Keys, g.edges, s, i, n);
    assert s.Into(i) == s.OutOf(i) == i;
  }

  lemma OutflowIsKept(g: ExecutionGraph, s: Expansion<Link>, entry: GraphNode, exit: GraphNode, n: string)
    requires WellFormed(g) && Passes(g) && Rewrites(g, s, entry, exit) && n in g.nodes && !IsType(g, n, Input)
    ensures ToOutput(Expanded(g, s, entry, exit), s.Into(n))
    ensures ToOutput(Expanded(g, s, entry, exit), s.OutOf(n))
  {
    var g' := Expanded(g, s, entry, exit);
    RewriteIsWellFormed(g, s, entry, exit);
    AllValid(g); AllValid(g');
    PassingGraphFlows(g, n);
    var o :| IsType(g, o, Output) && Reach(g.edges, n, o);
    OutputIsKept(g, s, entry, exit, o);
    ReachPreserved(g.nodes.Keys, g.edges, s, n, o);
  }

  lemma OutputIsKept(g: ExecutionGraph, s: Expansion<Link>, entry: GraphNode, exit: GraphNode, o: string)
    requires WellFormed(g) && Rewrites(g, s, entry, exit) && IsType(g, o, Output)
    ensures IsType(Expanded(g, s, entry, exit), s.OutOf(o), Output)
  {}

  lemma FlowIsKept(g: ExecutionGraph, s: Expansion<Link>, entry: GraphNode, exit: GraphNode, n: string)
    requires WellFormed(g) && Passes(g) && Rewrites(g, s, entry, exit) && n in g.nodes
    ensures FromInput(Expanded(g, s, entry, exit), s.Into(n))
    ensures FromInput(Expanded(g, s, entry, exit), s.OutOf(n))
    ensures !IsType(g, n, Input) ==> ToOutput(Expanded(g, s, entry, exit), s.Into(n))
    ensures !IsType(g, n, Input) ==> ToOutput(Expanded(g, s, entry, exit), s.OutOf(n))
  {
    InflowIsKept(g, s, entry, exit, n);
    if !IsType(g, n, Input) { OutflowIsKept(g, s, entry, exit, n); }
  }

  lemma DataInputsMove(g: ExecutionGraph, s: Expansion<Link>, n: string)
    requires WellFormed(g) && Fresh(g.nodes.Keys, s) && n in g.nodes
    ensures DataInputs(Expand(g.edges, s), s.Into(n)) == MoveAll(DataInputs(g.edges, n), s)
    ensures |DataInputs(Expand(g.edges, s), s.Into(n))| == |DataInputs(g.edges, n)|
    ensures DataLike(s.Bridge()) ==> DataInputs(Expand(g.edges, s), s.exit) == {s.Bridge()}
  {
    var edges' := Expand(g.edges, s);
    ArcsAround(g.nodes.Keys, g.edges, s, n);
    SubsetIsExpandable(g.nodes.Keys, g.edges, DataInputs(g.edges, n), s);
    assert forall m :: DataInputs(edges', m) == (set e | e in CD.In(edges', m) && DataLike(e));
  }

  lemma EntryRaisesNothingElse(g: ExecutionGraph, s: Expansion<Link>, entry: GraphNode, exit: GraphNode, i: Issue)
    requires WellFormed(g) && Passes(g) && Rewrites(g, s, entry, exit)
    requires AboutNodes(i) && i.node == s.entry
    ensures NodeRaises(Expanded(g, s, entry, exit), i) <==>
              i.AggregateMissingInputs? && entry.nodeType == Aggregate && |DataInputs(g.edges, s.x)| < 2
  {
    var g' := Expanded(g, s, entry, exit);
    RewriteIsWellFormed(g, s, entry, exit);
    AllValid(g');
    FlowIsKept(g, s, entry, exit, s.x);
    DataInputsMove(g, s, s.x);
    ReasonsAndAggregates(g', i);
  }

  lemma ReasonsAndAggregates(g: ExecutionGraph, i: Issue)
    requires AboutNodes(i) && i.node in g.nodes && g.nodes[i.node].nodeType in {Reason, Aggregate}
    requires FromInput(g, i.node) && ToOutput(g, i.node)
    ensures NodeRaises(g, i) <==>
              && i.AggregateMissingInputs? && g.nodes[i.node].nodeType == Aggregate
              && |DataInputs(ValidEdges(g), i.node)| < 2
  {}

  /** Node m of g' has the type of node n of g, and whatever edges that type needs if n has them. */
  ghost predicate NeedsCarryOver(g: ExecutionGraph, n: string, g': ExecutionGraph, m: string) {
    && n in g.nodes && m in g'.nodes && g'.nodes[m].nodeType == g.nodes[n].nodeType
    && (g.nodes[n].nodeType == Input && CD.In(ValidEdges(g), n) == {} ==> CD.In(ValidEdges(g'), m) == {})
    && (CD.Out(ValidEdges(g), n) == {} <==> CD.Out(ValidEdges(g'), m) == {})
    && (DataInputs(ValidEdges(g), n) != {} ==> DataInputs(ValidEdges(g'), m) != {})
    && (g.nodes[n].nodeType == Aggregate ==> |DataInputs(ValidEdges(g'), m)| == |DataInputs(ValidEdges(g), n)|)
    && FromInput(g', m) && (g.nodes[n].nodeType != Input ==> ToOutput(g', m))
  }

  lemma NeedsMet(g: ExecutionGraph, n: string, g': ExecutionGraph, i: Issue)
    requires Passes(g) && AboutNodes(i) && NeedsCarryOver(g, n, g', i.node)
    ensures !NodeRaises(g', i)
  {
    assert !Raises(g, i.(node := n));
  }

  lemma OldNodesCarryOver(g: ExecutionGraph, s: Expansion<Link>, entry: GraphNode, exit: GraphNode, n: string)
    requires WellFormed(g) && Passes(g) && Rewrites(g, s, entry, exit) && n in g.nodes
    ensures NeedsCarryOver(g, n, Expanded(g, s, entry, exit), s.OutOf(n))
  {
    RewriteIsWellFormed(g, s, entry, exit);
    AllValid(g); AllValid(Expanded(g, s, entry, exit));
    FlowIsKept(g, s, entry, exit, n);
    DataInputsMove(g, s, n);
    ArcsAround(g.nodes.Keys, g.edges, s, n);
    SubsetIsExpandable(g.nodes.Keys, g.edges, CD.Out(g.edges, n), s);
  }

  lemma PassingEdge(g: ExecutionGraph, d: Edge, fromTool: bool)
    requires Passes(g)
    ensures !MisusesToolResult(g, d, fromTool)
  {
    var i := if fromTool then ToolResultAsGenericDependency(d.src, d.dst) else InvalidToolResultProducer(d.src, d.dst);
    assert !Raises(g, i);
  }

  lemma NoToolResultIssue(g: ExecutionGraph, s: Expansion<Link>, entry: GraphNode, exit: GraphNode, i: Issue)
    requires WellFormed(g) && Passes(g) && Rewrites(g, s, entry, exit) && AboutToolResults(i)
    ensures !ToolResultRaises(Expanded(g, s, entry, exit), i)
  {
    var g' := Expanded(g, s, entry, exit);
    RewriteIsWellFormed(g, s, entry, exit);
    AllValid(g); AllValid(g');
    var fromTool := i.ToolResultAsGenericDependency?;
    forall e | e in g'.edges ensures !MisusesToolResult(g', e, fromTool) {
      if e != s.Bridge() {
        var d :| d in g.edges && s.Moved(d) == e;
        PassingEdge(g, d, fromTool);
      }
    }
  }

  lemma TypesAreKept(g: ExecutionGraph, s: Expansion<Link>, entry: GraphNode, exit: GraphNode, t: NodeType)
    requires WellFormed(g) && Rewrites(g, s, entry, exit)
    ensures OfType(g, t) != {} ==> OfType(Expanded(g, s, entry, exit), t) != {}
  {
    if OfType(g, t) != {} {
      var n :| n in OfType(g, t);
      assert s.OutOf(n) in OfType(Expanded(g, s, entry, exit), t);
    }
  }

  lemma NoOtherIssue(g: ExecutionGraph, s: Expansion<Link>, entry: GraphNode, exit: GraphNode, i: Issue)
    requires WellFormed(g) && Passes(g) && Rewrites(g, s, entry, exit)
    requires !AboutNodes(i) && !AboutToolResults(i)
    ensures !Raises(Expanded(g, s, entry, exit), i)
  {
    var g' := Expanded(g, s, entry, exit);
    RewriteIsWellFormed(g, s, entry, exit);
    AllValid(g); AllValid(g');
    assert !Raises(g, i) || AboutEdges(i);
    forall t ensures OfType(g, t) != {} ==> OfType(g', t) != {} {
      TypesAreKept(g, s, entry, exit, t);
    }
  }

  /** A rewrite of a graph that passes leaves it passing, unless the entry is an aggregate with fewer
      than two data-carrying inputs; then that is the one issue. */
  lemma RewriteIssues(g: ExecutionGraph, s: Expansion<Link>, entry: GraphNode, exit: GraphNode, i: Issue)
    requires WellFormed(g) && Passes(g) && Rewrites(g, s, entry, exit)
    ensures Raises(Expanded(g, s, entry, exit), i) <==>
              i == AggregateMissingInputs(s.entry) && entry.nodeType == Aggregate && |DataInputs(g.edges, s.x)| < 2
  {
    if AboutNodes(i) {
      if i.node == s.entry {
        EntryRaisesNothingElse(g, s, entry, exit, i);
      } else {
        var g' := Expanded(g, s, entry, exit);
        if i.node in g'.nodes {
          var n := OldOrEntry(g, s, entry, exit, i.node);
          OldNodesCarryOver(g, s, entry, exit, n);
          NeedsMet(g, n, g', i);
        }
      }
    } else if AboutToolResults(i) {
      NoToolResultIssue(g, s, entry, exit, i);
    } else {
      NoOtherIssue(g, s, entry, exit, i);
    }
  }

  lemma RewritePasses(g: ExecutionGraph, s: Expansion<Link>, entry: GraphNode, exit: GraphNode)
    requires WellFormed(g) && Passes(g) && Rewrites(g, s, entry, exit)
    ensures Passes(Expanded(g, s, entry, exit)) <==>
              (entry.nodeType == Aggregate ==> |DataInputs(g.edges, s.x)| >= 2)
  {
    var g' := Expanded(g, s, entry, exit);
    forall i ensures Raises(g', i) <==>
        i == AggregateMissingInputs(s.entry) && entry.nodeType == Aggregate && |DataInputs(g.edges, s.x)| < 2
    {
      RewriteIssues(g, s, entry, exit, i);
    }
    assert Raises(g', AggregateMissingInputs(s.entry)) <==>
        entry.nodeType == Aggregate && |DataInputs(g.edges, s.x)| < 2;
  }

  // ----- which rewrites apply

  function Stage1(id: string): string { id + "-stage-1" }
  function Stage2(id: string): string { id + "-stage-2" }
  function AggregateId(target: string): string { "node-aggregate-" + target }

  const STAGE_LINK := Link(Data, {Evidence("graph.transformation", "decomposed reasoning stages exchange logical data")})
  const AGGREGATE_LINK := Link(Data, {Evidence("graph.transformation", "aggregate produces logical data for downstream stage")})

  /** A deep workload with exactly one reasoning node. */
  predicate Decomposes(g: ExecutionGraph) {
    && g.profile.Some? && g.profile.value.complexity in {High, Deep}
    && |OfType(g, Reason)| == 1
  }

  ghost function TheReasoner(g: ExecutionGraph): (o: string)
    requires Decomposes(g)
    ensures OfType(g, Reason) == {o}
  {
    var o :| o in OfType(g, Reason);
    assert OfType(g, Reason) == {o} by {
      if p :| p in OfType(g, Reason) && p != o {
        assert {o, p} <= OfType(g, Reason);
        SubsetSize({o, p}, OfType(g, Reason));
      }
    }
    o
  }

  function Split(o: string): Expansion<Link> { Expansion(o, Stage1(o), Stage2(o), STAGE_LINK) }

  predicate StagesAreFresh(g: ExecutionGraph, o: string) {
    Stage1(o) !in g.nodes && Stage2(o) !in g.nodes
  }

  function SplitGraph(g: ExecutionGraph, o: string): ExecutionGraph
    requires o in g.nodes
  {
    Expanded(g, Split(o), g.nodes[o], g.nodes[o])
  }

  /** A target that gets an aggregate: several inputs, no aggregate at either end, a free name. */
  predicate NeedsAggregate(g: ExecutionGraph, t: string) {
    && t in g.nodes && g.nodes[t].nodeType != Aggregate
    && |CD.In(g.edges, t)| >= 2
    && (forall e :: e in CD.In(g.edges, t) ==> !IsType(g, e.src, Aggregate))
    && AggregateId(t) !in g.nodes
  }

  function Targets(g: ExecutionGraph): set<string> {
    set t | t in g.nodes && NeedsAggregate(g, t)
  }

  /** The source of the first incoming edge: edges are sorted by source, and those out of a new
      second stage are appended last. */
  ghost function FirstSource(incoming: set<Edge>, late: set<string>): string
    requires incoming != {}
  {
    var sources := set e | e in incoming :: e.src;
    assert sources != {} by { var e :| e in incoming; assert e.src in sources; }
    if sources - late == {} then Least(sources) else Least(sources - late)
  }

  function Insert(t: string): Expansion<Link> { Expansion(t, AggregateId(t), t, AGGREGATE_LINK) }

  ghost function AggregateNode(g: ExecutionGraph, t: string, late: set<string>): GraphNode
    requires Closed(g.nodes.Keys, g.edges) && CD.In(g.edges, t) != {}
    requires forall n :: n in g.nodes ==> g.nodes[n].capabilities != {}
  {
    var source := FirstSource(CD.In(g.edges, t), late);
    GraphNode(Aggregate, {FirstCapability(g.nodes[source].capabilities)})
  }

  /** The graph after the reasoning step, and the stage whose edges then come last. */
  ghost function Decomposed(g: ExecutionGraph): ExecutionGraph {
    if Decomposes(g) then SplitGraph(g, TheReasoner(g)) else g
  }

  ghost function Late(g: ExecutionGraph): set<string> {
    if Decomposes(g) then {Stage2(TheReasoner(g))} else {}
  }

  lemma DecomposedIsClosed(g: ExecutionGraph)
    requires WellFormed(g)
    ensures Closed(Decomposed(g).nodes.Keys, Decomposed(g).edges)
    ensures forall n :: n in Decomposed(g).nodes ==> Decomposed(g).nodes[n].capabilities != {}
  {
    if Decomposes(g) {
      var s := Split(TheReasoner(g));
      StaysClosed(g.nodes.Keys, g.edges, s);
      assert Decomposed(g).nodes.Keys == ExpandNodes(g.nodes.Keys, s.x, s.entry, s.exit);
    }
  }

  lemma TargetHasInput(g: ExecutionGraph, t: string)
    requires t in Targets(g)
    ensures CD.In(g.edges, t) != {}
  {
    assert |CD.In(g.edges, t)| >= 2;
  }

  ghost function Rewritten(g: ExecutionGraph): ExecutionGraph
    requires WellFormed(g)
  {
    DecomposedIsClosed(g);
    var g1 := Decomposed(g);
    if Targets(g1) == {} then g1 else
    var t := Least(Targets(g1));
    TargetHasInput(g1, t);
    Expanded(g1, Insert(t), AggregateNode(g1, t, Late(g)), g1.nodes[t])
  }

  predicate NothingApplies(g: ExecutionGraph) {
    !Decomposes(g) && Targets(g) == {}
  }

  datatype Outcome = Raised | NoOp | Changed(graph: ExecutionGraph)

  ghost function Transform(g: ExecutionGraph): Outcome
    requires WellFormed(g)
  {
    if !Passes(g) then Raised
    else if NothingApplies(g) then NoOp
    else if (Decomposes(g) ==> StagesAreFresh(g, TheReasoner(g))) && Passes(Rewritten(g)) then Changed(Rewritten(g))
    else Raised
  }

  // ----- the main results

  lemma SplitRewrites(g: ExecutionGraph)
    requires WellFormed(g) && Decomposes(g) && StagesAreFresh(g, TheReasoner(g))
    ensures var o := TheReasoner(g); Rewrites(g, Split(o), g.nodes[o], g.nodes[o])
  {
    var o := TheReasoner(g);
    assert o in OfType(g, Reason);
    assert Stage1(o)[|o| + 7] != Stage2(o)[|o| + 7];
  }

  lemma InsertRewrites(g: ExecutionGraph, t: string, late: set<string>)
    requires WellFormed(g) && Passes(g) && t in Targets(g) && CD.In(g.edges, t) != {}
    ensures Rewrites(g, Insert(t), AggregateNode(g, t, late), g.nodes[t])
  {
    AllValid(g);
    assert !Raises(g, InputHasDependency(t));
    assert |AggregateId(t)| != |t|;
  }

  lemma DecomposedPasses(g: ExecutionGraph)
    requires WellFormed(g) && Passes(g) && (Decomposes(g) ==> StagesAreFresh(g, TheReasoner(g)))
    ensures WellFormed(Decomposed(g)) && Passes(Decomposed(g))
  {
    if Decomposes(g) {
      var o := TheReasoner(g);
      SplitRewrites(g);
      RewriteIsWellFormed(g, Split(o), g.nodes[o], g.nodes[o]);
      assert o in OfType(g, Reason);
      RewritePasses(g, Split(o), g.nodes[o], g.nodes[o]);
    }
  }

  /** The condition on the target, when there is one: two inputs that carry data. */
  ghost predicate TargetIsFed(g: ExecutionGraph) {
    Targets(g) != {} ==> |DataInputs(g.edges, Least(Targets(g)))| >= 2
  }

  lemma RewrittenPasses(g: ExecutionGraph)
    requires WellFormed(g) && Passes(g) && (Decomposes(g) ==> StagesAreFresh(g, TheReasoner(g)))
    ensures WellFormed(Rewritten(g))
    ensures Passes(Rewritten(g)) <==> TargetIsFed(Decomposed(g))
    ensures forall i :: Raises(Rewritten(g), i) ==>
              Targets(Decomposed(g)) != {} && i == AggregateMissingInputs(AggregateId(Least(Targets(Decomposed(g)))))
  {
    DecomposedPasses(g);
    var g1 := Decomposed(g);
    if Targets(g1) != {} {
      var t := Least(Targets(g1));
      TargetHasInput(g1, t);
      var a := AggregateNode(g1, t, Late(g));
      InsertRewrites(g1, t, Late(g));
      RewriteIsWellFormed(g1, Insert(t), a, g1.nodes[t]);
      RewritePasses(g1, Insert(t), a, g1.nodes[t]);
      forall i | Raises(Rewritten(g), i) ensures i == AggregateMissingInputs(AggregateId(t)) {
        RewriteIssues(g1, Insert(t), a, g1.nodes[t], i);
      }
    }
  }

  /** A transformation that has something to do succeeds exactly when the graph passes, the stage
      names are free, and the chosen target has two inputs that carry data; its result then passes
      too, so the final revalidation never raises except for an underfed aggregate. */
  lemma TransformSucceedsExactly(g: ExecutionGraph)
    requires WellFormed(g)
    ensures Transform(g).Changed? <==>
              && Passes(g) && !NothingApplies(g)
              && (Decomposes(g) ==> StagesAreFresh(g, TheReasoner(g)))
              && TargetIsFed(Decomposed(g))
    ensures Transform(g).Changed? ==> WellFormed(Transform(g).graph) && Passes(Transform(g).graph)
    ensures Transform(g).NoOp? <==> Passes(g) && NothingApplies(g)
  {
    if Passes(g) && (Decomposes(g) ==> StagesAreFresh(g, TheReasoner(g))) {
      RewrittenPasses(g);
    }
  }

  /** With several incoming edges, n is an aggregate, has an edge from one, or the name of its aggregate
      is taken. */
  predicate IsSettled(g: ExecutionGraph, n: string)
    requires Closed(g.nodes.Keys, g.edges) && n in g.nodes
  {
    |set e | e in g.edges && e.dst == n| >= 2 ==>
      || g.nodes[n].nodeType == Aggregate
      || (exists e :: e in g.edges && e.dst == n && g.nodes[e.src].nodeType == Aggregate)
      || "node-aggregate-" + n in g.nodes
  }

  predicate IsDeep(g: ExecutionGraph) {
    g.profile.Some? && (g.profile.value.complexity == High || g.profile.value.complexity == Deep)
  }

  lemma SettledExactly(g: ExecutionGraph, n: string)
    requires WellFormed(g) && n in g.nodes
    ensures IsSettled(g, n) <==> !NeedsAggregate(g, n)
  {
    assert CD.In(g.edges, n) == set e | e in g.edges && e.dst == n;
    forall e | e in g.edges && e.dst == n ensures e in CD.In(g.edges, n) {}
  }

  /** When there is nothing to do, on node types and edges alone: every node is settled, and a deep
      workload has not just one reasoning node. */
  lemma NoOpExactly(g: ExecutionGraph)
    requires WellFormed(g) && Passes(g)
    ensures Transform(g).NoOp? <==>
              && (forall n :: n in g.nodes ==> IsSettled(g, n))
              && (IsDeep(g) ==> |set n | n in g.nodes && g.nodes[n].nodeType == Reason| != 1)
  {
    assert OfType(g, Reason) == set n | n in g.nodes && g.nodes[n].nodeType == Reason;
    TargetsExactly(g);
  }

  lemma TargetsExactly(g: ExecutionGraph)
    requires WellFormed(g)
    ensures Targets(g) == {} <==> forall n :: n in g.nodes ==> IsSettled(g, n)
  {
    forall n | n in g.nodes ensures IsSettled(g, n) <==> n !in Targets(g) {
      SettledExactly(g, n);
    }
  }

  /** An aggregate before t: t has it as its one source, it has t as its one target, and what it gathers
      are two or more edges that come from no other aggregate. */
  ghost predicate Gathers(g: ExecutionGraph, a: string, t: string) {
    && a in g.nodes && t in g.nodes && g.nodes[a].nodeType == Aggregate && g.nodes[t].nodeType != Aggregate
    && (forall e :: e in g.edges ==> (e.dst == t <==> e.src == a))
    && Linked(g.edges, a, t)
    && (forall e :: e in g.edges && e.dst == a ==> e.src in g.nodes && g.nodes[e.src].nodeType != Aggregate)
    && |set e | e in g.edges && e.dst == a| >= 2
  }

  /** It takes over the first capability of the least of its sources; those of a second reasoning stage
      come last, since their edges are appended. */
  ghost predicate TakesOver(g: ExecutionGraph, a: string, m: string, late: set<string>) {
    && a in g.nodes && m in g.nodes && g.nodes[m].capabilities != {}
    && g.nodes[a].capabilities == {FirstCapability(g.nodes[m].capabilities)}
    && ComesFirst(g.edges, a, m, late)
  }

  ghost predicate ComesFirst(edges: set<Edge>, a: string, m: string, late: set<string>) {
    && Linked(edges, m, a)
    && forall e :: e in edges && e.dst == a && e.src != m ==>
         if m in late then e.src in late else e.src in late || Below(m, e.src)
  }

  lemma InsertedGathers(g: ExecutionGraph, t: string, late: set<string>) returns (m: string)
    requires WellFormed(g) && t in Targets(g) && CD.In(g.edges, t) != {}
    ensures var g' := Expanded(g, Insert(t), AggregateNode(g, t, late), g.nodes[t]);
            Gathers(g', AggregateId(t), t) && TakesOver(g', AggregateId(t), m, late)
  {
    var node := AggregateNode(g, t, late);
    InsertedGraph(g, t, node);
    InsertedArcs(g, t);
    ArcsGather(g, t, node);
    m := FirstSource(CD.In(g.edges, t), late);
    FirstSourceIsFirst(CD.In(g.edges, t), late);
    ArcsTakeOver(g, t, node, m, late);
  }

  lemma ArcsGather(g: ExecutionGraph, t: string, node: GraphNode)
    requires WellFormed(g) && t in Targets(g) && node.nodeType == Aggregate
    ensures Gathers(ExecutionGraph(g.id, g.nodes[AggregateId(t) := node], Expand(g.edges, Insert(t)), g.profile), AggregateId(t), t)
  {
    InsertedArcs(g, t);
    assert |AggregateId(t)| != |t|;
    assert Linked(Expand(g.edges, Insert(t)), AggregateId(t), t);
    forall e | e in Expand(g.edges, Insert(t)) && e.dst == AggregateId(t)
      ensures e.src in g.nodes && e.src != AggregateId(t) && g.nodes[e.src].nodeType != Aggregate
    {
      assert Arc(e.src, t, e.tag) in CD.In(g.edges, t);
    }
  }

  lemma ArcsTakeOver(g: ExecutionGraph, t: string, node: GraphNode, m: string, late: set<string>)
    requires WellFormed(g) && t in Targets(g) && m in g.nodes
    requires node.capabilities == {FirstCapability(g.nodes[m].capabilities)}
    requires exists d :: d in CD.In(g.edges, t) && d.src == m
    requires forall d :: d in CD.In(g.edges, t) && d.src != m ==>
               if m in late then d.src in late else d.src in late || Below(m, d.src)
    ensures TakesOver(ExecutionGraph(g.id, g.nodes[AggregateId(t) := node], Expand(g.edges, Insert(t)), g.profile),
                      AggregateId(t), m, late)
  {
    ArcsComeFirst(g, t, m, late);
  }

  lemma ArcsComeFirst(g: ExecutionGraph, t: string, m: string, late: set<string>)
    requires WellFormed(g) && t in Targets(g) && m in g.nodes
    requires exists d :: d in CD.In(g.edges, t) && d.src == m
    requires forall d :: d in CD.In(g.edges, t) && d.src != m ==>
               if m in late then d.src in late else d.src in late || Below(m, d.src)
    ensures m != AggregateId(t) && ComesFirst(Expand(g.edges, Insert(t)), AggregateId(t), m, late)
  {
    InsertedArcs(g, t);
    var a, edges' := AggregateId(t), Expand(g.edges, Insert(t));
    var d :| d in CD.In(g.edges, t) && d.src == m;
    assert Arc(m, a, d.tag) in edges' && Linked(edges', m, a) && m != a;
    forall e | e in edges' && e.dst == a && e.src != m
      ensures if m in late then e.src in late else e.src in late || Below(m, e.src)
    {
      assert Arc(e.src, t, e.tag) in CD.In(g.edges, t);
    }
  }

  lemma InsertedArcs(g: ExecutionGraph, t: string)
    requires WellFormed(g) && t in Targets(g)
    ensures var edges' := Expand(g.edges, Insert(t));
            && (forall e :: e in edges' ==> (e.dst == t <==> e.src == AggregateId(t)))
            && Arc(AggregateId(t), t, AGGREGATE_LINK) in edges'
            && (forall e :: e in edges' && e.dst == AggregateId(t) ==> Arc(e.src, t, e.tag) in g.edges)
            && (forall d :: d in g.edges && d.dst == t ==> Arc(d.src, AggregateId(t), d.tag) in edges')
            && |set e | e in edges' && e.dst == AggregateId(t)| >= 2
  {
    var edges' := Expand(g.edges, Insert(t));
    assert |AggregateId(t)| != |t|;
    forall e | e in edges' ensures e.dst == t <==> e.src == AggregateId(t)
      ensures e.dst == AggregateId(t) ==> Arc(e.src, t, e.tag) in g.edges
    {
      InsertedArc(g, t, e);
    }
    forall d | d in g.edges && d.dst == t ensures Arc(d.src, AggregateId(t), d.tag) in edges' {
      assert d.src != t && Insert(t).Moved(d) == Arc(d.src, AggregateId(t), d.tag);
      assert Insert(t).Moved(d) in MoveAll(g.edges, Insert(t));
    }
    assert Insert(t).Bridge() in edges';
    GatheredCount(g, t);
  }

  lemma InsertedArc(g: ExecutionGraph, t: string, e: Edge)
    requires WellFormed(g) && t in Targets(g) && t != AggregateId(t) && e in Expand(g.edges, Insert(t))
    ensures e.dst == t <==> e.src == AggregateId(t)
    ensures e.dst == AggregateId(t) ==> Arc(e.src, t, e.tag) in g.edges
  {
    if e != Insert(t).Bridge() {
      var d :| d in g.edges && Insert(t).Moved(d) == e;
      assert d.src in g.nodes && d.dst in g.nodes && d == Arc(d.src, d.dst, d.tag);
    }
  }

  lemma GatheredCount(g: ExecutionGraph, t: string)
    requires WellFormed(g) && t in Targets(g) && t != AggregateId(t)
    ensures |set e | e in Expand(g.edges, Insert(t)) && e.dst == AggregateId(t)| >= 2
  {
    InDegrees(g, Insert(t), t);
    assert CD.In(Expand(g.edges, Insert(t)), AggregateId(t)) == set e | e in Expand(g.edges, Insert(t)) && e.dst == AggregateId(t);
  }

  lemma FirstSourceIsFirst(incoming: set<Edge>, late: set<string>)
    requires incoming != {}
    ensures var m := FirstSource(incoming, late);
            && (exists e :: e in incoming && e.src == m)
            && (forall e :: e in incoming && e.src != m ==>
                  if m in late then e.src in late else e.src in late || Below(m, e.src))
  {
    var sources := set e | e in incoming :: e.src;
    forall e | e in incoming ensures e.src in sources {}
    var e :| e in incoming;
    assert sources - late != {} ==> FirstSource(incoming, late) == Least(sources - late);
    assert forall x :: x in sources ==> x in late || x in sources - late;
  }

  /** What rewriting adds: the stages of the one reasoning node of a deep workload, and at most one
      aggregate, which gathers the edges of a node that no aggregate fed. */
  lemma NewNodes(g: ExecutionGraph, n: string)
    requires WellFormed(g) && Transform(g).Changed?
    requires n in Transform(g).graph.nodes && n !in g.nodes
    ensures IsNewStage(g, Transform(g).graph, n) || IsNewAggregate(g, Transform(g).graph, n)
  {
    DecomposedPasses(g);
    NewInRewritten(g, n);
  }

  ghost predicate IsNewStage(g: ExecutionGraph, g': ExecutionGraph, n: string) {
    n in g'.nodes && exists o :: IsStageOf(g, o, n) && g'.nodes[n] == g.nodes[o]
  }

  ghost predicate IsNewAggregate(g: ExecutionGraph, g': ExecutionGraph, n: string) {
    exists t, m :: n == "node-aggregate-" + t && Gathers(g', n, t) && TakesOver(g', n, m, SecondStages(g))
  }

  lemma NewInRewritten(g: ExecutionGraph, n: string)
    requires WellFormed(g) && WellFormed(Decomposed(g)) && n in Rewritten(g).nodes && n !in g.nodes
    ensures IsNewStage(g, Rewritten(g), n) || IsNewAggregate(g, Rewritten(g), n)
  {
    var g1 := Decomposed(g);
    if Targets(g1) != {} && n == AggregateId(Least(Targets(g1))) {
      var m := NewAggregate(g);
    } else {
      StagesSurvive(g, n);
      StagesAreNew(g, n);
    }
  }

  lemma NewAggregate(g: ExecutionGraph) returns (m: string)
    requires WellFormed(g) && WellFormed(Decomposed(g)) && Targets(Decomposed(g)) != {}
    ensures var t := Least(Targets(Decomposed(g)));
            Gathers(Rewritten(g), AggregateId(t), t) && TakesOver(Rewritten(g), AggregateId(t), m, SecondStages(g))
  {
    var g1 := Decomposed(g);
    var t := Least(Targets(g1));
    TargetHasInput(g1, t);
    m := InsertedGathers(g1, t, Late(g));
    LateIsSecondStage(g);
  }

  lemma StagesAreNew(g: ExecutionGraph, n: string)
    requires WellFormed(g) && n in Decomposed(g).nodes && n !in g.nodes
    ensures exists o :: IsStageOf(g, o, n) && Decomposed(g).nodes[n] == g.nodes[o]
  {
    assert IsSplit(g, TheReasoner(g));
    assert IsStageOf(g, TheReasoner(g), n);
  }

  lemma StagesSurvive(g: ExecutionGraph, n: string)
    requires WellFormed(g) && n in Rewritten(g).nodes && n !in g.nodes
    requires Targets(Decomposed(g)) == {} || n != AggregateId(Least(Targets(Decomposed(g))))
    ensures n in Decomposed(g).nodes && Rewritten(g).nodes[n] == Decomposed(g).nodes[n]
  {
    var g1 := Decomposed(g);
    if Targets(g1) != {} {
      DecomposedIsClosed(g);
      var t := Least(Targets(g1));
      TargetHasInput(g1, t);
      InsertedGraph(g1, t, AggregateNode(g1, t, Late(g)));
    }
  }

  /** n is one of the two stages that o is split into. */
  predicate IsStageOf(g: ExecutionGraph, o: string, n: string) {
    o in g.nodes && IsSplit(g, o) && (n == o + "-stage-1" || n == o + "-stage-2")
  }

  function SecondStages(g: ExecutionGraph): set<string> { set o | o in g.nodes && IsSplit(g, o) :: o + "-stage-2" }

  lemma LateIsSecondStage(g: ExecutionGraph)
    requires WellFormed(g)
    ensures Late(g) == SecondStages(g)
  {
    if Decomposes(g) {
      assert TheReasoner(g) in OfType(g, Reason);
    }
  }

  // ----- the rewrite preserves meaning

  /** An insertion renames nothing and changes no reachability between the nodes it found. */
  lemma InsertKeepsReach(g: ExecutionGraph, t: string, a: string, b: string)
    requires WellFormed(g) && t in g.nodes && AggregateId(t) !in g.nodes && a in g.nodes && b in g.nodes
    ensures Reach(g.edges, a, b) <==> Reach(Expand(g.edges, Insert(t)), a, b)
  {
    assert |AggregateId(t)| != |t|;
    assert Insert(t).OutOf(a) == a && Insert(t).OutOf(b) == b;
    ReachPreserved(g.nodes.Keys, g.edges, Insert(t), a, b);
  }

  predicate IsSplit(g: ExecutionGraph, n: string) {
    Decomposes(g) && OfType(g, Reason) == {n}
  }

  /** Where a walk that ended at a, or started at a, now ends or starts. */
  function EndAt(g: ExecutionGraph, n: string): string { if IsSplit(g, n) then Stage1(n) else n }
  function StartAt(g: ExecutionGraph, n: string): string { if IsSplit(g, n) then Stage2(n) else n }

  lemma SplitKeepsReach(g: ExecutionGraph, a: string, b: string)
    requires WellFormed(g) && (Decomposes(g) ==> StagesAreFresh(g, TheReasoner(g)))
    requires a in g.nodes && b in g.nodes
    ensures StartAt(g, a) in Decomposed(g).nodes && EndAt(g, b) in Decomposed(g).nodes
    ensures a != b ==> (Reach(g.edges, a, b) <==> Reach(Decomposed(g).edges, StartAt(g, a), EndAt(g, b)))
    ensures !IsSplit(g, a) ==> Decomposed(g).nodes[a] == g.nodes[a]
  {
    if Decomposes(g) {
      var s := Split(TheReasoner(g));
      SplitRewrites(g);
      if a == b {
      } else if a == s.x {
        ReachPreserved(g.nodes.Keys, g.edges, s, a, b);
        assert s.OutOf(a) == StartAt(g, a) && s.OutOf(b) == EndAt(g, b);
      } else {
        ReachPreserved(g.nodes.Keys, g.edges, s, a, b);
        assert s.Into(a) == StartAt(g, a) && s.Into(b) == EndAt(g, b);
      }
    }
  }

  lemma InsertKeepsMeaning(g: ExecutionGraph, entry: GraphNode, a: string, b: string)
    requires WellFormed(g) && Targets(g) != {} && a in g.nodes && b in g.nodes
    ensures var g' := Expanded(g, Insert(Least(Targets(g))), entry, g.nodes[Least(Targets(g))]);
            && (Reach(g.edges, a, b) <==> Reach(g'.edges, a, b))
            && a in g'.nodes && g'.nodes[a] == g.nodes[a]
  {
    var t := Least(Targets(g));
    assert t in Targets(g);
    InsertKeepsReach(g, t, a, b);
  }

  /** Every node but a split reasoner survives with its record; different survivors reach each other
      exactly as before; the split node's ancestors are those of its first stage, and its descendants
      those of its second. */
  lemma TransformPreservesMeaning(g: ExecutionGraph, a: string, b: string)
    requires WellFormed(g) && Transform(g).Changed?
    requires a in g.nodes && b in g.nodes
    ensures !IsSplit(g, a) ==> a in Transform(g).graph.nodes && Transform(g).graph.nodes[a] == g.nodes[a]
    ensures a != b ==>
              (Reach(g.edges, a, b) <==> Reach(Transform(g).graph.edges, StartAt(g, a), EndAt(g, b)))
  {
    DecomposedPasses(g);
    var g1 := Decomposed(g);
    SplitKeepsReach(g, a, b);
    if Targets(g1) != {} {
      var t := Least(Targets(g1));
      TargetHasInput(g1, t);
      InsertKeepsMeaning(g1, AggregateNode(g1, t, Late(g)), StartAt(g, a), EndAt(g, b));
    }
  }

  /** Each rewrite applied adds one edge. */
  lemma TransformAddsEdges(g: ExecutionGraph)
    requires WellFormed(g) && Transform(g).Changed?
    ensures |Transform(g).graph.edges| == |g.edges| + (if Decomposes(g) then 1 else 0)
                                                    + (if Targets(Decomposed(g)) != {} then 1 else 0)
  {
    DecomposedPasses(g);
    var g1 := Decomposed(g);
    if Decomposes(g) {
      SplitRewrites(g);
      OneMoreArc(g.nodes.Keys, g.edges, Split(TheReasoner(g)));
    }
    if Targets(g1) != {} {
      var t := Least(Targets(g1));
      TargetHasInput(g1, t);
      InsertRewrites(g1, t, Late(g));
      OneMoreArc(g1.nodes.Keys, g1.edges, Insert(t));
    }
  }

  // ----- normalisation terminates

  /** Nodes, other than aggregates, with several incoming edges. */
  function FanIn(g: ExecutionGraph): set<string> {
    set n | n in g.nodes && g.nodes[n].nodeType != Aggregate && |CD.In(g.edges, n)| >= 2
  }

  function Excess(g: ExecutionGraph): nat {
    (if Decomposes(g) then 1 else 0) + |FanIn(g)|
  }

  lemma InDegrees(g: ExecutionGraph, s: Expansion<Link>, n: string)
    requires WellFormed(g) && Fresh(g.nodes.Keys, s) && n in g.nodes
    ensures |CD.In(Expand(g.edges, s), s.Into(n))| == |CD.In(g.edges, n)|
    ensures |CD.In(Expand(g.edges, s), s.exit)| == 1
  {
    ArcsAround(g.nodes.Keys, g.edges, s, n);
    SubsetIsExpandable(g.nodes.Keys, g.edges, CD.In(g.edges, n), s);
  }

  /** The fan-in nodes of an expanded graph, in terms of those before. */
  lemma FanInAfter(g: ExecutionGraph, s: Expansion<Link>, entry: GraphNode, exit: GraphNode, n: string)
    requires WellFormed(g) && Fresh(g.nodes.Keys, s) && n in g.nodes
    ensures s.exit !in FanIn(Expanded(g, s, entry, exit))
    ensures n != s.x ==> (n in FanIn(Expanded(g, s, entry, exit)) <==> n in FanIn(g))
    ensures n == s.x && entry == g.nodes[n] ==> (s.entry in FanIn(Expanded(g, s, entry, exit)) <==> n in FanIn(g))
    ensures entry.nodeType == Aggregate ==> s.entry !in FanIn(Expanded(g, s, entry, exit))
  {
    InDegrees(g, s, n);
    assert n != s.x ==> s.Into(n) == n && Expanded(g, s, entry, exit).nodes[n] == g.nodes[n];
  }

  lemma SplitFanIn(g: ExecutionGraph, s: Expansion<Link>, node: GraphNode)
    requires WellFormed(g) && Fresh(g.nodes.Keys, s) && s.x != s.exit && node == g.nodes[s.x]
    ensures |FanIn(Expanded(g, s, node, node))| == |FanIn(g)|
  {
    var g1 := Expanded(g, s, node, node);
    forall n | n in g.nodes
      ensures s.exit !in FanIn(g1)
      ensures n != s.x ==> (n in FanIn(g1) <==> n in FanIn(g))
      ensures n == s.x ==> (s.entry in FanIn(g1) <==> n in FanIn(g))
    {
      FanInAfter(g, s, node, node, n);
    }
    SwapKeepsSize(FanIn(g), FanIn(g1), s.x, s.entry);
  }

  /** One element takes the place of another, all others stay. */
  lemma SwapKeepsSize(a: set<string>, b: set<string>, x: string, y: string)
    requires x in a <==> y in b
    requires x == y || (x !in b && y !in a)
    requires forall n :: n != x && n != y ==> (n in a <==> n in b)
    ensures |b| == |a|
  {
    assert b == if x in a then a - {x} + {y} else a;
  }

  lemma SplitLowersExcess(g: ExecutionGraph)
    requires WellFormed(g) && Decomposes(g) && StagesAreFresh(g, TheReasoner(g))
    ensures Excess(Decomposed(g)) < Excess(g)
  {
    var s := Split(TheReasoner(g));
    SplitRewrites(g);
    assert s.x in OfType(g, Reason);
    SplitFanIn(g, s, g.nodes[s.x]);
    assert {s.entry, s.exit} <= OfType(Decomposed(g), Reason);
    SubsetSize({s.entry, s.exit}, OfType(Decomposed(g), Reason));
  }

  lemma InsertLowersExcess(g: ExecutionGraph, t: string, entry: GraphNode)
    requires WellFormed(g) && t in Targets(g) && entry.nodeType == Aggregate
    ensures Excess(Expanded(g, Insert(t), entry, g.nodes[t])) < Excess(g)
  {
    var g' := Expanded(g, Insert(t), entry, g.nodes[t]);
    assert |AggregateId(t)| != |t|;
    InsertFanIn(g, t, entry);
    InsertKeepsReasons(g, t, entry);
  }

  lemma InsertKeepsReasons(g: ExecutionGraph, t: string, entry: GraphNode)
    requires WellFormed(g) && t in Targets(g) && entry.nodeType == Aggregate && t != AggregateId(t)
    ensures OfType(Expanded(g, Insert(t), entry, g.nodes[t]), Reason) == OfType(g, Reason)
  {}

  /** The target is no fan-in node any more, and the new aggregate never is one. */
  lemma InsertFanIn(g: ExecutionGraph, t: string, entry: GraphNode)
    requires WellFormed(g) && t in Targets(g) && entry.nodeType == Aggregate && t != AggregateId(t)
    ensures |FanIn(Expanded(g, Insert(t), entry, g.nodes[t]))| == |FanIn(g)| - 1
  {
    var s := Insert(t);
    var g' := Expanded(g, s, entry, g.nodes[t]);
    forall n | n in g.nodes
      ensures t !in FanIn(g') && s.entry !in FanIn(g')
      ensures n != t ==> (n in FanIn(g') <==> n in FanIn(g))
    {
      FanInAfter(g, s, entry, g.nodes[t], n);
    }
    assert t in FanIn(g);
    OneLess(FanIn(g), FanIn(g'), t);
  }

  lemma OneLess(a: set<string>, b: set<string>, x: string)
    requires x in a && x !in b && forall n :: n != x ==> (n in a <==> n in b)
    ensures |b| == |a| - 1
  {
    assert b == a - {x};
  }

  /** Every rewrite that changes the graph lowers the excess. */
  lemma TransformLowersExcess(g: ExecutionGraph)
    requires WellFormed(g) && Transform(g).Changed?
    ensures Excess(Transform(g).graph) < Excess(g)
  {
    DecomposedPasses(g);
    var g1 := Decomposed(g);
    if Decomposes(g) {
      SplitLowersExcess(g);
    }
    if Targets(g1) != {} {
      var t := Least(Targets(g1));
      TargetHasInput(g1, t);
      InsertLowersExcess(g1, t, AggregateNode(g1, t, Late(g)));
    }
  }

  /** At most n calls are made before one changes nothing or raises. */
  ghost predicate SettlesWithin(g: ExecutionGraph, n: nat)
    requires WellFormed(g)
    decreases n
  {
    n > 0 &&
    (Transform(g).Changed? ==>
       WellFormed(Transform(g).graph) && SettlesWithin(Transform(g).graph, n - 1))
  }

  lemma {:induction false} SettlesByExcess(g: ExecutionGraph, n: nat)
    requires WellFormed(g) && n > Excess(g)
    ensures SettlesWithin(g, n)
    decreases n
  {
    if Transform(g).Changed? {
      TransformSucceedsExactly(g);
      TransformLowersExcess(g);
      SettlesByExcess(Transform(g).graph, n - 1);
    }
  }

  lemma PassingHasFreeInput(g: ExecutionGraph) returns (i: string)
    requires WellFormed(g) && Passes(g)
    ensures i in g.nodes && CD.In(g.edges, i) == {}
  {
    AllValid(g);
    assert !Raises(g, MissingInput);
    i :| i in OfType(g, Input);
    assert !Raises(g, InputHasDependency(i));
  }

  /** Iterated from any graph, the transformation settles within one call more than it has nodes. */
  lemma NormalisationTerminates(g: ExecutionGraph)
    requires WellFormed(g)
    ensures SettlesWithin(g, |g.nodes| + 1)
  {
    if Transform(g).Changed? {
      var i := PassingHasFreeInput(g);
      assert FanIn(g) <= g.nodes.Keys - {i};
      SubsetSize(FanIn(g), g.nodes.Keys - {i});
      SettlesByExcess(g, |g.nodes| + 1);
    }
  }

  // ----- the transformation as it is carried out

  /** The scan over the sorted targets, stopping at the first that needs an aggregate. */
  method PickTarget(g: ExecutionGraph) returns (t: Option<string>)
    requires Closed(g.nodes.Keys, g.edges)
    ensures t.Some? <==> Targets(g) != {}
    ensures t.Some? ==> t.value in Targets(g) && t.value == Least(Targets(g))
  {
    var ids := Sort(g.nodes.Keys);
    SortedAscending(g.nodes.Keys);
    t := FirstTarget(g, ids, Targets(g));
  }

  method FirstTarget(g: ExecutionGraph, ids: seq<string>, ghost targets: set<string>) returns (t: Option<string>)
    requires Closed(g.nodes.Keys, g.edges) && Ascending(ids) && Elements(ids) == g.nodes.Keys && targets == Targets(g)
    ensures t.Some? <==> targets != {}
    ensures t.Some? ==> t.value in targets && t.value == Least(targets)
  {
    assert targets <= Elements(ids);
    for i := 0 to |ids|
      invariant forall j :: 0 <= j < i ==> ids[j] !in targets
    {
      assert ids[i] in Elements(ids);
      var passedOver := IsPassedOver(g, ids[i]);
      if passedOver {
        continue;
      }
      FirstInOrder(ids, i, targets);
      return Some(ids[i]);
    }
    assert forall x :: x in targets ==> x in Elements(ids);
    return None;
  }

  /** The reasons to go on to the next target. */
  method IsPassedOver(g: ExecutionGraph, target: string) returns (yes: bool)
    requires Closed(g.nodes.Keys, g.edges) && target in g.nodes
    ensures yes <==> !NeedsAggregate(g, target)
  {
    var incoming := CD.In(g.edges, target);
    if |incoming| < 2 || g.nodes[target].nodeType == Aggregate {
      return true;
    }
    if exists e :: e in incoming && g.nodes[e.src].nodeType == Aggregate {
      return true;
    }
    return "node-aggregate-" + target in g.nodes;
  }

  lemma FirstInOrder(ids: seq<string>, i: nat, chosen: set<string>)
    requires Ascending(ids) && i < |ids| && ids[i] in chosen && chosen <= Elements(ids)
    requires forall j :: 0 <= j < i ==> ids[j] !in chosen
    ensures chosen != {} && ids[i] == Least(chosen)
  {
    assert IsLeast(ids[i], chosen);
    LeastUnique(chosen, ids[i], Least(chosen));
  }

  method PickCapability(g: ExecutionGraph, t: string, late: set<string>) returns (node: GraphNode)
    requires Closed(g.nodes.Keys, g.edges) && CD.In(g.edges, t) != {}
    requires forall n :: n in g.nodes ==> g.nodes[n].capabilities != {}
    ensures node == AggregateNode(g, t, late)
  {
    var sources := set e | e in CD.In(g.edges, t) :: e.src;
    assert sources != {} by { var e :| e in CD.In(g.edges, t); assert e.src in sources; }
    var source := FindLeast(if sources - late == {} then sources else sources - late);
    assert source == FirstSource(CD.In(g.edges, t), late);
    node := GraphNode(Aggregate, {FirstCapability(g.nodes[source].capabilities)});
  }

  /** Moving the edges of the reasoning node to its stages, list by list. */
  method SplitEdges(edges: set<Edge>, original: string) returns (r: set<Edge>)
    requires forall e :: e in edges ==> e.src != e.dst
    ensures r == Expand(edges, Split(original))
  {
    var first, second := original + "-stage-1", original + "-stage-2";
    var incoming, outgoing := CD.In(edges, original), CD.Out(edges, original);
    r := edges - incoming - outgoing;
    r := r + set e | e in incoming :: Arc(e.src, first, e.tag);
    var evidence := Evidence("graph.transformation", "decomposed reasoning stages exchange logical data");
    r := r + {Arc(first, second, Link(Data, {evidence}))};
    r := r + set e | e in outgoing :: Arc(second, e.dst, e.tag);
    forall e ensures e in r <==> e in Expand(edges, Split(original)) {
      if e in Expand(edges, Split(original)) && e != Split(original).Bridge() {
        var d :| d in edges && Split(original).Moved(d) == e;
      }
    }
  }

  method InsertEdges(edges: set<Edge>, t: string) returns (r: set<Edge>)
    ensures r == Expand(edges, Insert(t))
  {
    var incoming := CD.In(edges, t);
    r := edges - incoming;
    var aggregate := "node-aggregate-" + t;
    r := r + set e | e in incoming :: Arc(e.src, aggregate, e.tag);
    var evidence := Evidence("graph.transformation", "aggregate produces logical data for downstream stage");
    r := r + {Arc(aggregate, t, Link(Data, {evidence}))};
    forall e ensures e in r <==> e in Expand(edges, Insert(t)) {
      if e in Expand(edges, Insert(t)) && e != Insert(t).Bridge() {
        var d :| d in edges && Insert(t).Moved(d) == e;
      }
    }
  }

  /** The lists that the rewriter rebinds: nodes kept, nodes appended, edges. */
  datatype Draft = Draft(kept: map<string, GraphNode>, added: seq<(string, GraphNode)>, edges: set<Edge>, late: set<string>)
  {
    function Graph(id: GraphId, profile: Option<Profile>): ExecutionGraph {
      ExecutionGraph(id, kept + NodeMap(added), edges, profile)
    }
    ghost predicate IdsAreUnique() {
      Distinct(NodeIds(added)) && Elements(NodeIds(added)) !! kept.Keys
    }
  }

  method DecomposeStep(g: ExecutionGraph) returns (d: Draft)
    requires WellFormed(g)
    ensures d.Graph(g.id, g.profile) == Decomposed(g) && d.late == Late(g)
    ensures d.IdsAreUnique() <==> (Decomposes(g) ==> StagesAreFresh(g, TheReasoner(g)))
    ensures d.kept.Keys <= g.nodes.Keys && forall n :: n in d.kept ==> d.kept[n] == g.nodes[n]
    ensures forall n :: n in d.added ==> n.1.capabilities != {}
    ensures d.added != [] <==> Decomposes(g)
  {
    if g.profile.Some? && g.profile.value.complexity in {High, Deep} {
      var reasoning := OfType(g, Reason);
      if |reasoning| == 1 {
        var original :| original in reasoning;
        assert original == TheReasoner(g);
        var node := g.nodes[original];
        var edges := SplitEdges(g.edges, original);
        d := Draft(g.nodes - {original}, [(Stage1(original), node), (Stage2(original), node)], edges, {Stage2(original)});
        StageIds(g, original, d);
        return;
      }
    }
    d := Draft(g.nodes, [], g.edges, {});
    assert NodeIds(d.added) == [];
    assert d.kept + NodeMap(d.added) == g.nodes;
  }

  lemma StageIds(g: ExecutionGraph, o: string, d: Draft)
    requires o in g.nodes && d.kept == g.nodes - {o}
    requires d.added == [(Stage1(o), g.nodes[o]), (Stage2(o), g.nodes[o])]
    ensures d.IdsAreUnique() <==> StagesAreFresh(g, o)
    ensures d.kept + NodeMap(d.added) == SplitGraph(g, o).nodes
  {
    var ids := NodeIds(d.added);
    assert ids == [Stage1(o), Stage2(o)];
    assert Stage1(o)[|o| + 7] != Stage2(o)[|o| + 7] && |Stage1(o)| != |o| && |Stage2(o)| != |o|;
    assert Elements(ids) == {Stage1(o), Stage2(o)};
    assert d.added[..1] == [(Stage1(o), g.nodes[o])] && d.added[..1][..0] == [];
    assert NodeMap(d.added) == map[][Stage1(o) := g.nodes[o]][Stage2(o) := g.nodes[o]];
  }

  lemma UpdateAfterMerge(a: map<string, GraphNode>, b: map<string, GraphNode>, id: string, node: GraphNode)
    ensures a + b[id := node] == (a + b)[id := node]
  {}

  lemma AppendNode(d: Draft, id: string, node: GraphNode)
    requires id !in d.kept + NodeMap(d.added)
    ensures d.kept + NodeMap(d.added + [(id, node)]) == (d.kept + NodeMap(d.added))[id := node]
    ensures d.(added := d.added + [(id, node)]).IdsAreUnique() <==> d.IdsAreUnique()
  {
    var more := d.added + [(id, node)];
    assert more[..|more|-1] == d.added;
    assert NodeMap(more) == NodeMap(d.added)[id := node];
    UpdateAfterMerge(d.kept, NodeMap(d.added), id, node);
    assert NodeIds(more) == NodeIds(d.added) + [id];
    AppendDistinct(NodeIds(d.added), id);
  }

  lemma AppendDistinct(q: seq<string>, x: string)
    requires x !in Elements(q)
    ensures Elements(q + [x]) == Elements(q) + {x}
    ensures Distinct(q + [x]) <==> Distinct(q)
  {
    if Distinct(q + [x]) {
      forall i, j | 0 <= i < j < |q| ensures q[i] != q[j] {
        assert (q + [x])[i] == q[i] && (q + [x])[j] == q[j];
      }
    }
  }

  lemma InsertedGraph(g: ExecutionGraph, t: string, node: GraphNode)
    requires t in g.nodes && AggregateId(t) !in g.nodes
    ensures Expanded(g, Insert(t), node, g.nodes[t]) ==
              ExecutionGraph(g.id, g.nodes[AggregateId(t) := node], Expand(g.edges, Insert(t)), g.profile)
  {
    assert |AggregateId(t)| != |t|;
  }

  method InsertStep(d: Draft, g: ExecutionGraph) returns (d': Draft, inserted: bool)
    requires WellFormed(g) && d.Graph(g.id, g.profile) == Decomposed(g) && d.late == Late(g)
    ensures d'.Graph(g.id, g.profile) == Rewritten(g)
    ensures inserted <==> Targets(Decomposed(g)) != {}
    ensures d'.IdsAreUnique() <==> d.IdsAreUnique()
    ensures d'.kept == d.kept
    ensures forall n :: n in d'.added ==> n in d.added || n.1.capabilities != {}
  {
    var current := d.Graph(g.id, g.profile);
    DecomposedIsClosed(g);
    var target := PickTarget(current);
    match target {
      case None => return d, false;
      case Some(t) =>
        TargetHasInput(current, t);
        var node := PickCapability(current, t, d.late);
        var edges := InsertEdges(d.edges, t);
        AppendNode(d, AggregateId(t), node);
        d' := d.(added := d.added + [(AggregateId(t), node)], edges := edges);
        InsertedGraph(current, t, node);
        inserted := true;
    }
  }

  /** Validate, rewrite, construct, validate again. */
  method TransformExecutionGraph(g: ExecutionGraph) returns (r: Outcome)
    requires WellFormed(g)
    ensures r == Transform(g)
  {
    var before := ValidateExecutionGraph(g);
    if !before.passed {
      return Raised;
    }
    var d := DecomposeStep(g);
    var d', inserted := InsertStep(d, g);
    if d.added == [] && !inserted {
      return NoOp;
    }
    if d.IdsAreUnique() {
      RewrittenPasses(g);
    }
    r := Rebuild(d', g.id, g.profile);
  }

  /** The constructor and the revalidation that end the transformation. */
  method Rebuild(d: Draft, id: GraphId, profile: Option<Profile>) returns (r: Outcome)
    requires forall id :: id in d.kept ==> d.kept[id].capabilities != {}
    requires forall n :: n in d.added ==> n.1.capabilities != {}
    ensures r == if d.IdsAreUnique() && WellFormed(d.Graph(id, profile)) && Passes(d.Graph(id, profile))
                 then Changed(d.Graph(id, profile)) else Raised
  {
    var built := Construct(id, d.kept, d.added, d.edges, profile);
    if built.None? {
      return Raised;
    }
    var after := ValidateExecutionGraph(built.value);
    return if after.passed then Changed(built.value) else Raised;
  }
}
