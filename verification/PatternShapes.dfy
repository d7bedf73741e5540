/** The shape check that every composition pattern must pass, and which graphs it lets through. */
module PatternShapes {
  import opened Orders
  import opened Digraph
  import opened Paths
  import opened ExecutionGraphs
  import opened IntelligenceModels
  import opened CompositionPatterns
  import CycleDetection
  import opened Sets

  function StageSet(p: Pattern): set<string> { Elements(Stages(p.slots)) }

  function SlotAt(slots: seq<Slot>, stage: string): (s: Slot)
    requires stage in Stages(slots)
    ensures s in slots && s.stage == stage
  {
    assert Stages(slots)[Position(Stages(slots), stage)] == stage;
    slots[Position(Stages(slots), stage)]
  }

  /** DATA, between declared stages whose roles may follow each other. */
  predicate EdgeFits(p: Pattern, e: PatternEdge) {
    && e.src in Stages(p.slots) && e.dst in Stages(p.slots) && e.src != e.dst && e.tag == Data
    && AllowedTransition(SlotAt(p.slots, e.src).role, SlotAt(p.slots, e.dst).role)
  }

  predicate GroupsFit(t: Topology, ordered: seq<Slot>) {
    forall s :: s in ordered ==> GroupFits(t, s)
  }

  /** Return topologies bind their PRIMARY stages together; the others have no identity groups. */
  predicate GroupFits(t: Topology, s: Slot) {
    if Returns(t) then s.role == Primary ==> s.group == Some("primary") else s.group == None
  }

  /** The slots in the order in which the sorted removal visits their stages. */
  ghost function Ordered(p: Pattern): seq<Slot> {
    var order := LeastFirst(StageSet(p), p.edges);
    assert forall x :: x in order ==> x in StageSet(p);
    SlotsIn(p.slots, order)
  }

  function SlotsIn(slots: seq<Slot>, order: seq<string>): seq<Slot>
    requires forall x :: x in order ==> x in Stages(slots)
  {
    seq(|order|, i requires 0 <= i < |order| => assert order[i] in order; SlotAt(slots, order[i]))
  }

  ghost predicate HasShape(p: Pattern) {
    && p.slots != [] && |p.slots| <= MAX_COMPOSITION_NODES && Distinct(Stages(p.slots))
    && p.id == PatternId(p.topology)
    && (forall e :: e in p.edges ==> EdgeFits(p, e))
    && IsConnectedDag(StageSet(p), p.edges)
    && Roles(Ordered(p)) == RoleSequence(p.topology)
    && |p.edges| == |p.slots| - 1
    && GroupsFit(p.topology, Ordered(p))
  }

  lemma StageSetIs(p: Pattern, stages: set<string>)
    requires stages == set i | 0 <= i < |p.slots| :: p.slots[i].stage
    ensures stages == StageSet(p) && (p.slots != [] ==> stages != {})
  {
    forall i | 0 <= i < |p.slots| ensures p.slots[i].stage in StageSet(p) {
      assert Stages(p.slots)[i] == p.slots[i].stage;
    }
    if p.slots != [] { assert p.slots[0].stage in stages; }
  }

  lemma OrderedIsComplete(p: Pattern)
    requires Distinct(Stages(p.slots)) && Closed(StageSet(p), p.edges) && !Cyclic(p.edges)
    ensures IsTopologicalOrder(StageSet(p), p.edges, LeastFirst(StageSet(p), p.edges))
    ensures |LeastFirst(StageSet(p), p.edges)| == |p.slots| == |Ordered(p)|
    ensures Stages(Ordered(p)) == LeastFirst(StageSet(p), p.edges)
  {
    LeastFirstDecidesCycles(StageSet(p), p.edges);
    DistinctSize(Stages(p.slots));
    DistinctSize(LeastFirst(StageSet(p), p.edges));
  }

  lemma ShapeHasCount(p: Pattern)
    ensures HasShape(p) ==> |p.slots| == |RoleSequence(p.topology)|
  {
    if HasShape(p) { OrderedIsComplete(p); }
  }

  const ALLOWED_TRANSITIONS: set<(Role, Role)> := {
    (Primary, Verifier), (Primary, Critic), (Primary, Specialist), (Primary, RetrievalAugmenter), (Primary, ToolModel),
    (Specialist, Primary), (Specialist, Verifier), (RetrievalAugmenter, Primary), (ToolModel, Primary)}

  /** Every edge: its ends, its dependency, its roles. An edge from a stage to itself is no pattern edge. */
  method CheckEdges(p: Pattern) returns (ok: bool)
    ensures ok <==> forall e :: e in p.edges ==> EdgeFits(p, e)
  {
    var todo := p.edges;
    while todo != {}
      invariant todo <= p.edges && forall e :: e in p.edges - todo ==> EdgeFits(p, e)
      decreases todo
    {
      var e :| e in todo;
      todo := todo - {e};
      if e.src !in Stages(p.slots) || e.dst !in Stages(p.slots) || e.src == e.dst {
        return false;
      }
      if e.tag != Data {
        return false;
      }
      if (SlotAt(p.slots, e.src).role, SlotAt(p.slots, e.dst).role) !in ALLOWED_TRANSITIONS {
        return false;
      }
    }
    return true;
  }

  /** The identity groups, in the order of the slots. */
  method CheckGroups(t: Topology, ordered: seq<Slot>) returns (ok: bool)
    ensures ok <==> GroupsFit(t, ordered)
  {
    for i := 0 to |ordered|
      invariant forall k :: 0 <= k < i ==> GroupFits(t, ordered[k])
    {
      var s := ordered[i];
      assert s in ordered;
      if t in {PrimarySpecialistPrimary, PrimaryRetrievalPrimary, PrimaryToolPrimary} {
        if s.role == Primary && s.group != Some("primary") {
          return false;
        }
      } else if s.group.Some? {
        return false;
      }
    }
    return true;
  }

  /** The shape check that every pattern passes when it is built: the slots in path order, or an error. */
  method CheckShape(p: Pattern) returns (r: Option<seq<Slot>>)
    requires p.slots != [] && |p.slots| <= MAX_COMPOSITION_NODES && Distinct(Stages(p.slots))
    ensures r.Some? <==> HasShape(p)
    ensures r.Some? ==> r.value == Ordered(p)
  {
    var stages := set i | 0 <= i < |p.slots| :: p.slots[i].stage;
    StageSetIs(p, stages);
    if p.id != PatternId(p.topology) || |p.slots| != |RoleSequence(p.topology)| {
      ShapeHasCount(p);
      return None;
    }
    var fit := CheckEdges(p);
    if !fit {
      return None;
    }
    var connected := GraphIsAConnectedDag(stages, p.edges);
    if !connected {
      return None;
    }
    var order, cyclic := CycleDetection.TopologicalOrder(stages, p.edges);
    OrderedIsComplete(p);
    var ordered := SlotsIn(p.slots, order);
    if Roles(ordered) != RoleSequence(p.topology) || |p.edges| != |p.slots| - 1 {
      return None;
    }
    var grouped := CheckGroups(p.topology, ordered);
    return if grouped then Some(ordered) else None;
  }

  // ----- what the check admits

  /** An edge of an accepted pattern goes from an earlier to a later slot of the order. */
  lemma EdgeGoesForward(p: Pattern, e: PatternEdge) returns (i: nat, j: nat)
    requires HasShape(p) && e in p.edges
    ensures i < j < |Ordered(p)| && e == Arc(Ordered(p)[i].stage, Ordered(p)[j].stage, Data)
    ensures AllowedTransition(RoleSequence(p.topology)[i], RoleSequence(p.topology)[j])
  {
    OrderedIsComplete(p);
    var q := LeastFirst(StageSet(p), p.edges);
    assert EdgeFits(p, e);
    assert e.dst in Elements(q) && e.src in Elements(q);
    j :| 0 <= j < |q| && q[j] == e.dst;
    assert e.src in q[..j];
    i :| 0 <= i < j && q[i] == e.src;
    assert Ordered(p)[i] == SlotAt(p.slots, q[i]) && Ordered(p)[j] == SlotAt(p.slots, q[j]);
    assert Roles(Ordered(p))[i] == RoleSequence(p.topology)[i];
    assert Roles(Ordered(p))[j] == RoleSequence(p.topology)[j];
  }

  /** In an accepted pattern, either every edge joins neighbours of the order, or one leads from the
      first to the last of three slots. */
  ghost predicate Skips(p: Pattern) {
    |Ordered(p)| == 3 && Linked(p.edges, Ordered(p)[0].stage, Ordered(p)[2].stage)
  }

  lemma WithoutSkip(p: Pattern)
    requires HasShape(p) && !Skips(p)
    ensures p.edges == PathEdges(Ordered(p))
  {
    OrderedIsComplete(p);
    forall e | e in p.edges ensures e in PathEdges(Ordered(p)) {
      var i, j := EdgeGoesForward(p, e);
      NeighbouringEdge(p, e, i, j);
    }
    PathEdgesCount(Ordered(p));
    EqualBySize(p.edges, PathEdges(Ordered(p)));
  }

  lemma NeighbouringEdge(p: Pattern, e: PatternEdge, i: nat, j: nat)
    requires |Ordered(p)| <= 3 && !Skips(p) && e in p.edges
    requires i < j < |Ordered(p)| && e == Arc(Ordered(p)[i].stage, Ordered(p)[j].stage, Data)
    ensures e in PathEdges(Ordered(p))
  {
    if j == i + 1 { assert e == PathEdge(Ordered(p), i); }
  }

  lemma PathDoesNotSkip<L>(q: seq<string>, arcs: set<Arc<L>>)
    requires IsPath(q, arcs) && |q| == 3
    ensures !Linked(arcs, q[0], q[2])
  {
    forall e | e in arcs ensures !(e.src == q[0] && e.dst == q[2]) {
      var i := PathStep(q, arcs, e);
      assert q[0] != q[1] && q[1] != q[2];
    }
  }

  lemma FirstToLast(t: Topology)
    requires |RoleSequence(t)| == 3 && AllowedTransition(RoleSequence(t)[0], RoleSequence(t)[2])
    ensures t == PrimarySpecialistVerifier
  {}

  lemma DistinctIndex(q: seq<string>, i: nat, j: nat)
    requires Distinct(q) && i < |q| && j < |q| && q[i] == q[j]
    ensures i == j
  {}

  lemma SkipsMeansVerifier(p: Pattern)
    requires HasShape(p) && Skips(p)
    ensures p.topology == PrimarySpecialistVerifier
  {
    OrderedIsComplete(p);
    var q := Stages(Ordered(p));
    var e :| e in p.edges && e.src == Ordered(p)[0].stage && e.dst == Ordered(p)[2].stage;
    var i, j := EdgeGoesForward(p, e);
    DistinctIndex(q, i, 0);
    DistinctIndex(q, j, 2);
    assert |Roles(Ordered(p))| == 3;
    FirstToLast(p.topology);
  }

  /** In the pattern as it is handed in: a primary-specialist-verifier pattern with an edge from its
      primary slot to its verifier slot. */
  predicate PrimaryFeedsVerifier(p: Pattern) {
    && p.topology == PrimarySpecialistVerifier
    && exists e :: e in p.edges && IsSlotOf(p.slots, e.src, Primary) && IsSlotOf(p.slots, e.dst, Verifier)
  }

  predicate IsSlotOf(slots: seq<Slot>, stage: string, role: Role) {
    stage in Stages(slots) && SlotAt(slots, stage).role == role
  }

  lemma OrderedRole(p: Pattern, i: nat, role: Role)
    requires HasShape(p) && i < |Ordered(p)|
    ensures IsSlotOf(p.slots, Ordered(p)[i].stage, role) <==> RoleSequence(p.topology)[i] == role
  {
    OrderedIsComplete(p);
    var q := LeastFirst(StageSet(p), p.edges);
    assert q[i] in StageSet(p);
    assert Ordered(p)[i] == SlotAt(p.slots, q[i]) && Ordered(p)[i].stage == q[i];
    assert Roles(Ordered(p))[i] == RoleSequence(p.topology)[i];
  }

  lemma SkipFeedsVerifier(p: Pattern)
    requires HasShape(p) && Skips(p)
    ensures PrimaryFeedsVerifier(p)
  {
    SkipsMeansVerifier(p);
    OrderedRole(p, 0, Primary);
    OrderedRole(p, 2, Verifier);
  }

  lemma FeedingVerifierSkips(p: Pattern)
    requires HasShape(p) && PrimaryFeedsVerifier(p)
    ensures Skips(p)
  {
    var e :| e in p.edges && IsSlotOf(p.slots, e.src, Primary) && IsSlotOf(p.slots, e.dst, Verifier);
    var i, j := EdgeGoesForward(p, e);
    OrderedRole(p, i, Primary);
    OrderedRole(p, j, Verifier);
    OrderedIsComplete(p);
    assert |Roles(Ordered(p))| == |RoleSequence(p.topology)|;
    EndsByRole(i, j);
    LinkedByEdge(p.edges, e);
  }

  lemma EndsByRole(i: nat, j: nat)
    requires i < j < |RoleSequence(PrimarySpecialistVerifier)|
    requires RoleSequence(PrimarySpecialistVerifier)[i] == Primary && RoleSequence(PrimarySpecialistVerifier)[j] == Verifier
    ensures |RoleSequence(PrimarySpecialistVerifier)| == 3 && i == 0 && j == 2
  {}

  lemma LinkedByEdge<L>(arcs: set<Arc<L>>, e: Arc<L>)
    requires e in arcs
    ensures Linked(arcs, e.src, e.dst)
  {}

  /** An accepted pattern is a path unless it is a primary-specialist-verifier pattern whose primary
      also feeds the verifier. */
  lemma ShapeIsAPathExactly(p: Pattern)
    requires HasShape(p)
    ensures IsPath(Stages(Ordered(p)), p.edges) <==> !PrimaryFeedsVerifier(p)
  {
    OrderedIsComplete(p);
    var q := Stages(Ordered(p));
    if Skips(p) {
      SkipFeedsVerifier(p);
      assert Linked(p.edges, q[0], q[2]);
      if IsPath(q, p.edges) { PathDoesNotSkip(q, p.edges); }
    } else {
      if PrimaryFeedsVerifier(p) { FeedingVerifierSkips(p); }
      WithoutSkip(p);
      SlotsMakeAPath(Ordered(p));
    }
  }

  /** All seven certified patterns pass, and their slots are already in path order. */
  lemma CertifiedPatternsHaveShape(t: Topology)
    ensures HasShape(PatternOf(t)) && Ordered(PatternOf(t)) == SlotsOf(t)
  {
    var p := PatternOf(t);
    CertifiedSlots(t);
    SlotsMakeAPath(p.slots);
    PathIsConnectedDag(Stages(p.slots), p.edges);
    CertifiedOrder(t);
    PathEdgesCount(p.slots);
    CertifiedEdgesFit(t);
    CertifiedGroups(t);
  }

  lemma SlotsInOrder(p: Pattern)
    requires Distinct(Stages(p.slots)) && LeastFirst(StageSet(p), p.edges) == Stages(p.slots)
    ensures Ordered(p) == p.slots
  {
    var q := Stages(p.slots);
    forall i | 0 <= i < |q| ensures SlotAt(p.slots, q[i]) == p.slots[i] {
      DistinctIndex(q, Position(q, q[i]), i);
    }
  }

  lemma PathSlotsInOrder(p: Pattern)
    requires p.slots != [] && Distinct(Stages(p.slots)) && p.edges == PathEdges(p.slots)
    ensures Ordered(p) == p.slots
  {
    var q := Stages(p.slots);
    SlotsMakeAPath(p.slots);
    PathIsItsOwnOrder(q, p.edges);
    SlotsInOrder(p);
  }

  lemma CertifiedOrder(t: Topology)
    ensures Ordered(PatternOf(t)) == SlotsOf(t)
  {
    CertifiedSlots(t);
    PathSlotsInOrder(PatternOf(t));
  }

  lemma RolesFollow(t: Topology, i: nat)
    requires i + 1 < |RoleSequence(t)|
    ensures AllowedTransition(RoleSequence(t)[i], RoleSequence(t)[i+1])
  {}

  lemma JumpFits(p: Pattern, i: nat, j: nat)
    requires i < j < |p.slots| && Distinct(Stages(p.slots))
    requires AllowedTransition(p.slots[i].role, p.slots[j].role)
    ensures EdgeFits(p, Arc(p.slots[i].stage, p.slots[j].stage, Data))
  {
    var q := Stages(p.slots);
    assert q[i] == p.slots[i].stage && q[j] == p.slots[j].stage;
    DistinctIndex(q, Position(q, q[i]), i);
    DistinctIndex(q, Position(q, q[j]), j);
  }

  lemma CertifiedEdgesFit(t: Topology)
    ensures forall e :: e in PatternOf(t).edges ==> EdgeFits(PatternOf(t), e)
  {
    CertifiedSlots(t);
    forall e | e in PatternOf(t).edges ensures EdgeFits(PatternOf(t), e) {
      var i :| 0 <= i < |SlotsOf(t)| - 1 && e == PathEdge(SlotsOf(t), i);
      assert Roles(SlotsOf(t))[i] == SlotsOf(t)[i].role && Roles(SlotsOf(t))[i+1] == SlotsOf(t)[i+1].role;
      RolesFollow(t, i);
      JumpFits(PatternOf(t), i, i + 1);
    }
  }

  lemma CertifiedGroups(t: Topology)
    ensures GroupsFit(t, SlotsOf(t))
  {}

  lemma PathEdgesCount(slots: seq<Slot>)
    requires 1 <= |slots| <= 3 && Distinct(Stages(slots))
    ensures |PathEdges(slots)| == |slots| - 1
  {
    if |slots| == 1 {
      assert PathEdges(slots) == {};
    } else if |slots| == 2 {
      assert PathEdges(slots) == {PathEdge(slots, 0)};
    } else {
      assert PathEdges(slots) == {PathEdge(slots, 0), PathEdge(slots, 1)};
      assert Stages(slots)[0] != Stages(slots)[1];
    }
  }

  // ----- an accepted pattern that is no path

  function ForkEdges(a: string, b: string, c: string): set<PatternEdge> { {Arc(a, b, Data), Arc(a, c, Data)} }

  /** The primary feeds specialist and verifier alike, side by side. */
  function Fork(): Pattern {
    Pattern(PrimarySpecialistVerifier, PatternId(PrimarySpecialistVerifier), SlotsOf(PrimarySpecialistVerifier),
            ForkEdges(StageName(Primary), StageName(Specialist), StageName(Verifier)))
  }

  lemma LeastFirstStep<L>(nodes: set<string>, arcs: set<Arc<L>>, m: string)
    requires IsLeast(m, Sources(nodes, arcs))
    ensures LeastFirst(nodes, arcs) == [m] + LeastFirst(nodes - {m}, arcs)
  {
    LeastUnique(Sources(nodes, arcs), m, Least(Sources(nodes, arcs)));
  }

  lemma ForkSources(a: string, b: string, c: string)
    requires a != b && a != c && b != c
    ensures Sources({a, b, c}, ForkEdges(a, b, c)) == {a}
    ensures Sources({b, c}, ForkEdges(a, b, c)) == {b, c}
    ensures Sources({c}, ForkEdges(a, b, c)) == {c}
  {
    var e, f: PatternEdge := Arc(a, b, Data), Arc(a, c, Data);
    assert e in ForkEdges(a, b, c) && f in ForkEdges(a, b, c);
  }

  lemma ForkOrder(a: string, b: string, c: string)
    requires a != b && a != c && b != c && Below(b, c)
    ensures LeastFirst({a, b, c}, ForkEdges(a, b, c)) == [a, b, c]
  {
    ForkSources(a, b, c);
    var arcs := ForkEdges(a, b, c);
    LeastFirstStep({a, b, c}, arcs, a);
    assert {a, b, c} - {a} == {b, c};
    LeastFirstStep({b, c}, arcs, b);
    assert {b, c} - {b} == {c};
    LeastFirstStep({c}, arcs, c);
    assert {c} - {c} == {};
    assert LeastFirst({}, arcs) == [];
  }

  lemma ForkIsProper(a: string, b: string, c: string)
    requires a != b && a != c && b != c
    ensures Proper({a, b, c}, ForkEdges(a, b, c)) && !HasOrphan({a, b, c}, ForkEdges(a, b, c))
    ensures !Cyclic(ForkEdges(a, b, c))
  {
    var arcs := ForkEdges(a, b, c);
    var e, f: PatternEdge := Arc(a, b, Data), Arc(a, c, Data);
    assert e in CycleDetection.Out(arcs, a) && e in CycleDetection.In(arcs, b) && f in CycleDetection.In(arcs, c);
    RankedIsAcyclic(arcs, x => if x == a then 0 else 1);
  }

  lemma ForkIsConnected(a: string, b: string, c: string)
    ensures Connected({a, b, c}, ForkEdges(a, b, c))
  {
    var both := Both(ForkEdges(a, b, c));
    var e, f: PatternEdge := Arc(a, b, Data), Arc(a, c, Data);
    assert e in both && f in both;
    ReachSelf(both, a);
    ReachArc(both, a, b);
    ReachArc(both, a, c);
    ConnectedFromOne({a, b, c}, ForkEdges(a, b, c), a);
  }

  lemma ForkNames()
    ensures StageName(Primary) != StageName(Specialist) && StageName(Primary) != StageName(Verifier)
    ensures StageName(Specialist) != StageName(Verifier) && Below(StageName(Specialist), StageName(Verifier))
  {
    assert "primary"[0] == 'p' && "specialist"[0] == 's' && "verifier"[0] == 'v';
  }

  lemma ForkStages()
    ensures Stages(Fork().slots) == [StageName(Primary), StageName(Specialist), StageName(Verifier)]
    ensures StageSet(Fork()) == {StageName(Primary), StageName(Specialist), StageName(Verifier)}
  {
    var q := Stages(Fork().slots);
    assert q == [StageName(Primary), StageName(Specialist), StageName(Verifier)];
    assert q[0] == StageName(Primary) && q[1] == StageName(Specialist) && q[2] == StageName(Verifier);
  }

  lemma ForkSlots()
    ensures Ordered(Fork()) == SlotsOf(PrimarySpecialistVerifier)
    ensures forall e :: e in Fork().edges ==> EdgeFits(Fork(), e)
  {
    ForkNames();
    ForkStages();
    ForkOrder(StageName(Primary), StageName(Specialist), StageName(Verifier));
    CertifiedSlots(PrimarySpecialistVerifier);
    SlotsInOrder(Fork());
    ForkEdgesFit();
  }

  lemma ForkEdgesFit()
    ensures forall e :: e in Fork().edges ==> EdgeFits(Fork(), e)
  {
    var slots := Fork().slots;
    CertifiedSlots(PrimarySpecialistVerifier);
    assert |slots| == 3 && slots[0].role == Primary && slots[1].role == Specialist && slots[2].role == Verifier;
    JumpFits(Fork(), 0, 1);
    JumpFits(Fork(), 0, 2);
  }

  lemma ForkHasShape()
    ensures HasShape(Fork())
  {
    var a, b, c := StageName(Primary), StageName(Specialist), StageName(Verifier);
    ForkNames();
    ForkStages();
    ForkSlots();
    ForkIsProper(a, b, c);
    ForkIsConnected(a, b, c);
    TwoForkEdges(a, b, c);
    CertifiedSlots(PrimarySpecialistVerifier);
    CertifiedGroups(PrimarySpecialistVerifier);
    ShapeFrom(Fork());
  }

  lemma ShapeFrom(p: Pattern)
    requires p.slots == SlotsOf(p.topology) == Ordered(p) && p.id == PatternId(p.topology)
    requires 1 <= |p.slots| <= MAX_COMPOSITION_NODES && Distinct(Stages(p.slots))
    requires Roles(p.slots) == RoleSequence(p.topology) && GroupsFit(p.topology, p.slots)
    requires IsConnectedDag(StageSet(p), p.edges) && |p.edges| == |p.slots| - 1
    requires forall e :: e in p.edges ==> EdgeFits(p, e)
    ensures HasShape(p)
  {}

  lemma TwoForkEdges(a: string, b: string, c: string)
    requires b != c
    ensures |ForkEdges(a, b, c)| == 2 && Linked(ForkEdges(a, b, c), a, c)
  {
    var e, f: PatternEdge := Arc(a, b, Data), Arc(a, c, Data);
    assert ForkEdges(a, b, c) == {e, f} && e != f;
  }

  /** "One bounded logical path" is what the check's last error says, but counting edges does not
      establish it: the fork passes. */
  lemma ForkPassesTheCheck()
    ensures HasShape(Fork()) && !IsPath(Stages(Ordered(Fork())), Fork().edges)
  {
    ForkHasShape();
    ForkSlots();
    ForkSkips();
    SkipFeedsVerifier(Fork());
    ShapeIsAPathExactly(Fork());
  }

  lemma ForkSkips()
    requires Ordered(Fork()) == SlotsOf(PrimarySpecialistVerifier)
    ensures Skips(Fork())
  {
    ForkNames();
    ForkStages();
    TwoForkEdges(StageName(Primary), StageName(Specialist), StageName(Verifier));
    SkipsByStages(Fork(), StageName(Primary), StageName(Specialist), StageName(Verifier));
  }

  lemma SkipsByStages(p: Pattern, a: string, b: string, c: string)
    requires Stages(Ordered(p)) == [a, b, c] && Linked(p.edges, a, c)
    ensures Skips(p)
  {
    var q := Stages(Ordered(p));
    assert q[0] == a && q[2] == c;
  }
}
