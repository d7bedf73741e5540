/** Certified shapes of a model composition: roles in sequence, joined into one path. */
module CompositionPatterns {
  import opened Orders
  import opened Digraph
  import opened Paths
  import opened ExecutionGraphs
  import opened IntelligenceModels
  import opened Texts
  import CycleDetection
  import Reachability

  const MAX_COMPOSITION_NODES: nat := 3

  // ----- connected acyclic graphs and paths

  /** Every arc, in both directions. */
  function Both<L(==)>(arcs: set<Arc<L>>): set<Arc<L>> { arcs + Reversed(arcs) }

  predicate IsOrphan<L(==)>(arcs: set<Arc<L>>, n: string) {
    CycleDetection.In(arcs, n) == {} && CycleDetection.Out(arcs, n) == {}
  }

  predicate HasOrphan<L(==)>(nodes: set<string>, arcs: set<Arc<L>>) {
    |nodes| > 1 && exists n :: n in nodes && IsOrphan(arcs, n)
  }

  ghost predicate Connected<L>(nodes: set<string>, arcs: set<Arc<L>>) {
    forall m, n :: m in nodes && n in nodes ==> Reach(Both(arcs), m, n)
  }

  ghost predicate IsConnectedDag<L>(nodes: set<string>, arcs: set<Arc<L>>) {
    Proper(nodes, arcs) && !HasOrphan(nodes, arcs) && Connected(nodes, arcs) && !Cyclic(arcs)
  }

  function Back(p: seq<string>): seq<string> { seq(|p|, i requires 0 <= i < |p| => p[|p| - 1 - i]) }

  lemma BackStep<L>(arcs: set<Arc<L>>, p: seq<string>, i: nat)
    requires IsWalk(Both(arcs), p) && 0 < i < |p|
    ensures Linked(Both(arcs), Back(p)[i-1], Back(p)[i])
  {
    var k := |p| - i;
    assert Linked(Both(arcs), p[k-1], p[k]);
    var e :| e in Both(arcs) && e.src == p[k-1] && e.dst == p[k];
    TurnedRound(arcs, e);
  }

  lemma BackIsWalk<L>(arcs: set<Arc<L>>, p: seq<string>)
    requires IsWalk(Both(arcs), p)
    ensures IsWalk(Both(arcs), Back(p)) && Back(p)[0] == p[|p|-1] && Back(p)[|p|-1] == p[0]
  {
    BackEnds(p);
    forall i | 0 < i < |p| ensures Linked(Both(arcs), Back(p)[i-1], Back(p)[i]) {
      BackStep(arcs, p, i);
    }
  }

  lemma BackEnds(p: seq<string>)
    requires p != []
    ensures |Back(p)| == |p| && Back(p)[0] == p[|p|-1] && Back(p)[|p|-1] == p[0]
  {}

  lemma BothSymmetric<L>(arcs: set<Arc<L>>, m: string, n: string)
    requires Reach(Both(arcs), m, n)
    ensures Reach(Both(arcs), n, m)
  {
    var p :| IsWalk(Both(arcs), p) && p[0] == m && p[|p|-1] == n;
    BackIsWalk(arcs, p);
  }

  lemma TurnedRound<L>(arcs: set<Arc<L>>, e: Arc<L>)
    requires e in Both(arcs)
    ensures Linked(Both(arcs), e.dst, e.src)
  {
    if e in arcs {
      assert Arc(e.dst, e.src, e.tag) in Reversed(arcs);
    } else {
      var d :| d in arcs && Arc(d.dst, d.src, d.tag) == e;
      assert d in Both(arcs);
    }
  }

  /** Whatever start the search takes, it decides connectedness. */
  lemma ConnectedFromOne<L>(nodes: set<string>, arcs: set<Arc<L>>, start: string)
    requires start in nodes
    ensures Connected(nodes, arcs) <==> forall n :: n in nodes ==> Reach(Both(arcs), start, n)
  {
    if forall n :: n in nodes ==> Reach(Both(arcs), start, n) {
      forall m, n | m in nodes && n in nodes ensures Reach(Both(arcs), m, n) {
        BothSymmetric(arcs, start, m);
        ReachTransitive(Both(arcs), m, start, n);
      }
    }
  }

  /** The search for connectedness, from the least node. */
  method IsConnected<L(==)>(nodes: set<string>, arcs: set<Arc<L>>) returns (ok: bool)
    requires nodes != {} && Closed(nodes, arcs)
    ensures ok <==> Connected(nodes, arcs)
  {
    var start := FindLeast(nodes);
    var seen := Reachability.Reachable(nodes, {start}, Both(arcs), true);
    ConnectedFromOne(nodes, arcs, start);
    forall n | n in nodes ensures n in seen <==> Reach(Both(arcs), start, n) {
      assert Reachability.Joined(Both(arcs), true, start, n) <==> Reach(Both(arcs), start, n);
    }
    return seen == nodes;
  }

  /** The graph check of a composition draft: it decides "connected and acyclic". */
  method GraphIsAConnectedDag<L(==)>(nodes: set<string>, arcs: set<Arc<L>>) returns (ok: bool)
    requires nodes != {}
    ensures ok <==> IsConnectedDag(nodes, arcs)
  {
    if !Proper(nodes, arcs) {
      return false;
    }
    if |nodes| > 1 {
      if HasOrphan(nodes, arcs) {
        return false;
      }
      var connected := IsConnected(nodes, arcs);
      if !connected {
        return false;
      }
    } else {
      OneNodeIsConnected(nodes, arcs);
    }
    var order, cyclic := CycleDetection.TopologicalOrder(nodes, arcs);
    return !cyclic;
  }

  lemma OneNodeIsConnected<L>(nodes: set<string>, arcs: set<Arc<L>>)
    requires |nodes| <= 1
    ensures Connected(nodes, arcs)
  {
    forall m, n | m in nodes && n in nodes ensures Reach(Both(arcs), m, n) {
      assert |nodes - {m}| == 0;
      assert nodes - {m} == {};
      ReachSelf(Both(arcs), m);
    }
  }

  lemma PathHasNoOrphan<L>(q: seq<string>, arcs: set<Arc<L>>)
    requires IsPath(q, arcs)
    ensures !HasOrphan(Elements(q), arcs)
  {
    DistinctSize(q);
    if |q| > 1 {
      forall n | n in Elements(q) ensures !IsOrphan(arcs, n) {
        var i :| 0 <= i < |q| && q[i] == n;
        var k := if i < |q| - 1 then i else i - 1;
        assert Linked(arcs, q[k], q[k+1]);
        LinkedAreNoOrphans(arcs, q[k], q[k+1]);
      }
    }
  }

  lemma LinkedAreNoOrphans<L>(arcs: set<Arc<L>>, m: string, n: string)
    requires Linked(arcs, m, n)
    ensures !IsOrphan(arcs, m) && !IsOrphan(arcs, n)
  {
    var e :| e in arcs && e.src == m && e.dst == n;
    assert e in CycleDetection.Out(arcs, m) && e in CycleDetection.In(arcs, n);
  }

  /** A path passes the graph check. */
  lemma PathIsConnectedDag<L>(q: seq<string>, arcs: set<Arc<L>>)
    requires IsPath(q, arcs)
    ensures IsConnectedDag(Elements(q), arcs)
  {
    PathIsAcyclic(q, arcs);
    PathHasNoOrphan(q, arcs);
    forall n | n in Elements(q) ensures Reach(Both(arcs), q[0], n) {
      var i :| 0 <= i < |q| && q[i] == n;
      PathReach(q, arcs, 0, i);
      var p :| IsWalk(arcs, p) && p[0] == q[0] && p[|p|-1] == n;
      forall k | 0 < k < |p| ensures Linked(Both(arcs), p[k-1], p[k]) {
        assert Linked(arcs, p[k-1], p[k]);
      }
      assert IsWalk(Both(arcs), p);
    }
    ConnectedFromOne(Elements(q), arcs, q[0]);
  }

  function Entries<L(==)>(nodes: set<string>, arcs: set<Arc<L>>): set<string> {
    set n | n in nodes && CycleDetection.In(arcs, n) == {}
  }

  function Exits<L(==)>(nodes: set<string>, arcs: set<Arc<L>>): set<string> {
    set n | n in nodes && CycleDetection.Out(arcs, n) == {}
  }

  /** A path has one entry and one exit. */
  lemma PathEnds<L>(q: seq<string>, arcs: set<Arc<L>>)
    requires IsPath(q, arcs)
    ensures Entries(Elements(q), arcs) == {q[0]} && Exits(Elements(q), arcs) == {q[|q|-1]}
  {
    forall n | n in Elements(q)
      ensures CycleDetection.In(arcs, n) == {} <==> n == q[0]
      ensures CycleDetection.Out(arcs, n) == {} <==> n == q[|q|-1]
    {
      var i :| 0 <= i < |q| && q[i] == n;
      PathNeighbours(q, arcs, i);
    }
    assert q[0] in q && q[|q|-1] in q;
  }

  lemma PathNeighbours<L>(q: seq<string>, arcs: set<Arc<L>>, i: nat)
    requires IsPath(q, arcs) && i < |q|
    ensures CycleDetection.In(arcs, q[i]) == {} <==> i == 0
    ensures CycleDetection.Out(arcs, q[i]) == {} <==> i == |q| - 1
  {
    forall e | e in arcs ensures (e.dst == q[i] ==> i > 0) && (e.src == q[i] ==> i < |q| - 1) {
      var k := PathStep(q, arcs, e);
    }
    if i > 0 {
      assert Linked(arcs, q[i-1], q[i]);
      var e :| e in arcs && e.src == q[i-1] && e.dst == q[i];
      assert e in CycleDetection.In(arcs, q[i]);
    }
    if i < |q| - 1 {
      assert Linked(arcs, q[i], q[i+1]);
      var e :| e in arcs && e.src == q[i] && e.dst == q[i+1];
      assert e in CycleDetection.Out(arcs, q[i]);
    }
  }

  // ----- the certified patterns

  datatype Role = Primary | Specialist | Verifier | Critic | RetrievalAugmenter | ToolModel

  datatype Topology =
    | Single | PrimaryVerifier | PrimaryCritic | PrimarySpecialistPrimary | PrimaryRetrievalPrimary
    | PrimaryToolPrimary | PrimarySpecialistVerifier

  datatype Slot = Slot(stage: string, role: Role, group: Option<string>)

  type PatternEdge = Arc<Dependency>

  datatype Pattern = Pattern(topology: Topology, id: string, slots: seq<Slot>, edges: set<PatternEdge>)

  function RoleSequence(t: Topology): seq<Role> {
    match t
    case Single => [Primary]
    case PrimaryVerifier => [Primary, Verifier]
    case PrimaryCritic => [Primary, Critic]
    case PrimarySpecialistPrimary => [Primary, Specialist, Primary]
    case PrimaryRetrievalPrimary => [Primary, RetrievalAugmenter, Primary]
    case PrimaryToolPrimary => [Primary, ToolModel, Primary]
    case PrimarySpecialistVerifier => [Primary, Specialist, Verifier]
  }

  predicate Returns(t: Topology) {
    t == PrimarySpecialistPrimary || t == PrimaryRetrievalPrimary || t == PrimaryToolPrimary
  }

  predicate AllowedTransition(a: Role, b: Role) {
    || (a == Primary && b != Primary)
    || (a == Specialist && (b == Primary || b == Verifier))
    || ((a == RetrievalAugmenter || a == ToolModel) && b == Primary)
  }

  function PatternId(t: Topology): string {
    match t
    case Single => "pattern-single-v1"
    case PrimaryVerifier => "pattern-primary-verifier-v1"
    case PrimaryCritic => "pattern-primary-critic-v1"
    case PrimarySpecialistPrimary => "pattern-primary-specialist-primary-v1"
    case PrimaryRetrievalPrimary => "pattern-primary-retrieval-primary-v1"
    case PrimaryToolPrimary => "pattern-primary-tool-primary-v1"
    case PrimarySpecialistVerifier => "pattern-primary-specialist-verifier-v1"
  }

  function StageName(r: Role): string {
    match r
    case Primary => "primary"
    case Specialist => "specialist"
    case Verifier => "verifier"
    case Critic => "critic"
    case RetrievalAugmenter => "retrieval-augmenter"
    case ToolModel => "tool-model"
  }

  function Plain(r: Role): Slot { Slot(StageName(r), r, None) }

  /** The two PRIMARY stages of a return topology, bound to one model. */
  function Grouped(stage: string): Slot { Slot(stage, Primary, Some("primary")) }

  /** The slots of the certified patterns, as they are declared. */
  function SlotsOf(t: Topology): seq<Slot> {
    match t
    case Single => [Plain(Primary)]
    case PrimaryVerifier => [Plain(Primary), Plain(Verifier)]
    case PrimaryCritic => [Plain(Primary), Plain(Critic)]
    case PrimarySpecialistPrimary => [Grouped("primary-in"), Plain(Specialist), Grouped("primary-out")]
    case PrimaryRetrievalPrimary => [Grouped("primary-in"), Plain(RetrievalAugmenter), Grouped("primary-out")]
    case PrimaryToolPrimary => [Grouped("primary-in"), Plain(ToolModel), Grouped("primary-out")]
    case PrimarySpecialistVerifier => [Plain(Primary), Plain(Specialist), Plain(Verifier)]
  }

  function PathEdge(slots: seq<Slot>, i: nat): PatternEdge
    requires i + 1 < |slots|
  {
    Arc(slots[i].stage, slots[i+1].stage, Data)
  }

  function PathEdges(slots: seq<Slot>): set<PatternEdge> {
    set i | 0 <= i < |slots| - 1 :: PathEdge(slots, i)
  }

  function PatternOf(t: Topology): Pattern {
    Pattern(t, PatternId(t), SlotsOf(t), PathEdges(SlotsOf(t)))
  }

  function Stages(slots: seq<Slot>): seq<string> {
    seq(|slots|, i requires 0 <= i < |slots| => slots[i].stage)
  }

  function Roles(slots: seq<Slot>): seq<Role> {
    seq(|slots|, i requires 0 <= i < |slots| => slots[i].role)
  }

  lemma CertifiedSlots(t: Topology)
    ensures 1 <= |SlotsOf(t)| <= MAX_COMPOSITION_NODES
    ensures Distinct(Stages(SlotsOf(t)))
    ensures Roles(SlotsOf(t)) == RoleSequence(t)
  {
    var slots := SlotsOf(t);
    assert "primary" != "specialist" && "primary" != "verifier" && "primary" != "critic" && "specialist" != "verifier";
    assert |"primary-in"| != |"primary-out"| && "primary-in"[0] == "primary-out"[0] == 'p';
    assert "specialist"[0] == 's' && "retrieval-augmenter"[0] == 'r' && "tool-model"[0] == 't';
  }

  /** The two PRIMARY stages of a return topology, first and last, are bound to one model. */
  predicate PairsPrimaries(p: Pattern) {
    Returns(p.topology) ==>
      && |p.slots| == 3 && p.slots[0].role == Primary && p.slots[1].role != Primary && p.slots[2].role == Primary
      && p.slots[0].group.Some? && p.slots[0].group == p.slots[2].group
  }

  /** What instantiation and validation need of a pattern: a path over distinct stages. */
  predicate Shaped(p: Pattern) {
    && 1 <= |p.slots| <= MAX_COMPOSITION_NODES && Distinct(Stages(p.slots))
    && p.edges == PathEdges(p.slots) && PairsPrimaries(p) && Nonblank(p.id)
  }

  lemma PatternIdIsNonblank(t: Topology)
    ensures Nonblank(PatternId(t))
  {
    assert PatternId(t)[0] == 'p';
    NonblankHead(PatternId(t));
  }

  lemma CertifiedIsShaped(t: Topology)
    ensures Shaped(PatternOf(t))
  {
    CertifiedSlots(t);
    PatternIdIsNonblank(t);
  }

  lemma SlotsMakeAPath(slots: seq<Slot>)
    requires slots != [] && Distinct(Stages(slots))
    ensures IsPath(Stages(slots), PathEdges(slots))
  {
    var q, arcs := Stages(slots), PathEdges(slots);
    forall e | e in arcs ensures exists i {:trigger q[i]} :: 0 <= i < |q| - 1 && e.src == q[i] && e.dst == q[i+1] {
      var i :| 0 <= i < |slots| - 1 && e == PathEdge(slots, i);
      assert e.src == q[i] && e.dst == q[i+1];
    }
    forall i | 0 <= i < |q| - 1 ensures Linked(arcs, q[i], q[i+1]) {
      assert PathEdge(slots, i) in arcs;
    }
  }
}
