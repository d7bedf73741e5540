/** The independent validator of composition drafts. It recomputes topology, registry membership,
    compatibility, coverage, handoffs, evidence, provenance and id, and trusts nothing it is given. */
module CompositionValidation {
  import opened IntelligenceModels
  import opened Digraph
  import opened ExecutionGraphs
  import opened CompositionPatterns
  import opened CompositionInstantiation
  import opened CompositionDrafts
  import opened ModelRegistry
  import opened Texts
  import CycleDetection

  datatype ValidationContext = ValidationContext(upstream: Upstream, registry: seq<Record>, hard: set<string>)

  datatype Issue =
    // topology
    | NodeCount
    | UndeclaredStage(src: string, dst: string)
    | SelfLoop(stage: string)
    | Orphan
    | Disconnected
    | CycleFound
    | EntryExit
    | PatternIdentity
    | PatternSlots
    | PatternEdges
    // identity and capability
    | UpstreamMismatch
    | Unregistered(stage: string)
    | Incompatible(stage: string)
    | RepeatedPrimary
    // coverage
    | Uncovered
    | NoJustification(stage: string)
    | BlankJustification(stage: string)
    | Unjustified
    // evidence
    | RequiredEvidence(assessment: Assessment)
    // handoffs
    | UndeclaredArtifact(edge: HandoffEdge)
    | StructureReplaced(edge: HandoffEdge)
    | ModalityMismatch(edge: HandoffEdge)
    | StructureLost(edge: HandoffEdge)
    | GenericHandoff(edge: HandoffEdge)
    // provenance and id
    | NoProvenance
    | BlankProvenance
    | NoStageProvenance(stage: string)
    | WrongId

  // ----- what each issue means

  function ValidHandoffs(d: Draft): set<HandoffEdge> {
    set e | e in d.edges && e.src in d.stages && e.dst in d.stages && e.src != e.dst
  }

  function Projected(e: HandoffEdge): PatternEdge { Arc(e.src, e.dst, e.tag.dependency) }

  predicate MatchesSlots(d: Draft, p: Pattern) {
    && d.stages.Keys == Elements(Stages(p.slots))
    && forall s :: s in p.slots ==> s.stage in d.stages && d.stages[s.stage].role == s.role
  }

  predicate MatchesEdges(d: Draft, p: Pattern) {
    && (set e | e in ValidHandoffs(d) :: Projected(e)) == p.edges
    && |ValidHandoffs(d)| == |p.edges|
  }

  predicate OneEntryOneExit(d: Draft) {
    |Entries(d.stages.Keys, ValidHandoffs(d))| == 1 && |Exits(d.stages.Keys, ValidHandoffs(d))| == 1
  }

  predicate CountFits(d: Draft) { 1 <= |d.stages| <= MAX_COMPOSITION_NODES }

  predicate EdgeRaises(d: Draft, i: Issue) {
    match i
    case UndeclaredStage(src, dst) =>
      exists e :: e in d.edges && e.src == src && e.dst == dst && (src !in d.stages || dst !in d.stages)
    case SelfLoop(stage) => stage in d.stages && exists e :: e in d.edges && e.src == e.dst == stage
    case _ => false
  }

  ghost predicate GraphRaises(d: Draft, i: Issue) {
    match i
    case Orphan => HasOrphan(d.stages.Keys, ValidHandoffs(d))
    case Disconnected => !Connected(d.stages.Keys, ValidHandoffs(d))
    case CycleFound => Cyclic(ValidHandoffs(d))
    case EntryExit => !Cyclic(ValidHandoffs(d)) && |d.stages| > 1 && !OneEntryOneExit(d)
    case _ => false
  }

  predicate PatternRaises(d: Draft, p: Pattern, i: Issue) {
    match i
    case PatternIdentity => d.patternId != p.id
    case PatternSlots => !MatchesSlots(d, p)
    case PatternEdges => !MatchesEdges(d, p)
    case _ => false
  }

  ghost predicate TopologyRaises(d: Draft, p: Pattern, i: Issue) {
    if !CountFits(d) then i == NodeCount else EdgeRaises(d, i) || GraphRaises(d, i) || PatternRaises(d, p, i)
  }

  function Primaries(d: Draft): set<string> { set s | s in d.stages && d.stages[s].role == Primary }

  predicate OnePrimaryModel(d: Draft) {
    && |Primaries(d)| == 2
    && forall a, b :: a in Primaries(d) && b in Primaries(d) ==> d.stages[a].record.identity == d.stages[b].record.identity
  }

  predicate IdentityRaises(d: Draft, c: ValidationContext, compatible: Compatibility, p: Pattern, i: Issue) {
    match i
    case UpstreamMismatch => !NonblankUpstream(d.upstream) || d.upstream != c.upstream
    case Unregistered(stage) => stage in d.stages && d.stages[stage].record !in c.registry
    case Incompatible(stage) =>
      stage in d.stages && !compatible(d.stages[stage].record, d.stages[stage].requirements)
    case RepeatedPrimary => Returns(p.topology) && !OnePrimaryModel(d)
    case _ => false
  }

  predicate AllNonblank(ids: set<string>) { forall id :: id in ids ==> Nonblank(id) }

  function JustifiedIds(d: Draft): set<string> {
    set s, id | s in d.stages && id in d.stages[s].justified && Nonblank(id) :: id
  }

  predicate CoverageRaises(d: Draft, c: ValidationContext, i: Issue) {
    match i
    case Uncovered => !(c.hard <= d.satisfied)
    case NoJustification(stage) => stage in d.stages && d.stages[stage].justified == {}
    case BlankJustification(stage) => stage in d.stages && !AllNonblank(d.stages[stage].justified)
    case Unjustified => !(d.satisfied <= JustifiedIds(d))
    case _ => false
  }

  /** Any of the hard trust flags, not only the one that blocks instantiation. */
  predicate ExplicitlyRequired(r: EvidenceRequirements) {
    r.requiresEvidence || r.requiresCurrent || r.requiresMeasured || r.requiresProduction || r.rejectsConflicts
  }

  predicate EvidenceRaises(d: Draft, i: Issue) {
    && i.RequiredEvidence? && i.assessment in d.assessments
    && ExplicitlyRequired(i.assessment.requirements) && i.assessment.status != Acceptable
  }

  predicate Joins(d: Draft, e: HandoffEdge) { e in d.edges && e.src in d.stages && e.dst in d.stages }

  predicate KeepsStructure(artifacts: map<string, Artifact>) {
    exists id :: id in artifacts && (artifacts[id].structured || Structured in artifacts[id].modalities)
  }

  function Accepted(artifacts: map<string, Artifact>): set<ModelModality> {
    set id, m | id in artifacts && m in artifacts[id].modalities :: m
  }

  /** The word that the artifact of some roles must bear. */
  function Marker(r: Role): Option<string> {
    match r
    case RetrievalAugmenter => Some("retrieval")
    case ToolModel => Some("tool")
    case Specialist => Some("specialist")
    case _ => None
  }

  predicate Contains(s: string, part: string) {
    exists i :: 0 <= i <= |s| && StartsAt(s, part, i)
  }

  predicate StartsAt(s: string, part: string, i: nat)
    requires i <= |s|
  {
    part <= s[i..]
  }

  /** The issues of one handoff from a stage to the next. */
  predicate HandoffFault(src: Stage, dst: Stage, e: HandoffEdge, i: Issue) {
    var id := e.tag.artifact;
    match i
    case UndeclaredArtifact(x) => x == e && id !in src.outputs
    case StructureReplaced(x) => x == e && id !in src.outputs && KeepsStructure(src.outputs)
    case ModalityMismatch(x) => x == e && id in src.outputs && src.outputs[id].modalities * Accepted(dst.inputs) == {}
    case StructureLost(x) =>
      x == e && id in src.outputs && src.outputs[id].structured && !KeepsStructure(dst.inputs)
    case GenericHandoff(x) => x == e && Marker(src.role).Some? && !Contains(id, Marker(src.role).value)
    case _ => false
  }

  ghost predicate HandoffRaises(d: Draft, i: Issue) {
    exists e :: Joins(d, e) && HandoffFault(d.stages[e.src], d.stages[e.dst], e, i)
  }

  predicate AllSound(refs: set<Reference>) { forall r :: r in refs ==> Sound(r) }

  predicate ProvenanceRaises(d: Draft, i: Issue) {
    match i
    case NoProvenance => d.provenance == {}
    case BlankProvenance => !AllSound(d.provenance)
    case NoStageProvenance(stage) => stage in d.stages && d.stages[stage].provenance == {}
    case _ => false
  }

  /** The id recomputed from the draft; None when a slot has no stage. */
  function RecomputedId(d: Draft, p: Pattern): Option<CompositionId> {
    if exists s :: s in p.slots && s.stage !in d.stages then None
    else Some(CompositionId(d.upstream, p.topology,
      seq(|p.slots|, i requires 0 <= i < |p.slots| => assert p.slots[i] in p.slots; Recomputed(d, p.slots[i])), p.edges))
  }

  function Recomputed(d: Draft, s: Slot): StageIdentity
    requires s.stage in d.stages
  {
    var stage := d.stages[s.stage];
    StageIdentity(s.stage, s.role, stage.record.identity, stage.justified, stage.requirements)
  }

  predicate IdRaises(d: Draft, p: Pattern, i: Issue) { i == WrongId && RecomputedId(d, p) != Some(d.id) }

  ghost predicate Raises(d: Draft, c: ValidationContext, compatible: Compatibility, p: Pattern, i: Issue) {
    || TopologyRaises(d, p, i) || IdentityRaises(d, c, compatible, p, i) || CoverageRaises(d, c, i)
    || EvidenceRaises(d, i) || HandoffRaises(d, i) || ProvenanceRaises(d, i) || IdRaises(d, p, i)
  }

  /** The status PASS. */
  ghost predicate Passes(d: Draft, c: ValidationContext, compatible: Compatibility, p: Pattern) {
    forall i :: !Raises(d, c, compatible, p, i)
  }

  // ----- the validator

  method EdgeLoop(d: Draft) returns (issues: set<Issue>, valid: set<HandoffEdge>)
    ensures valid == ValidHandoffs(d)
    ensures forall i :: i in issues <==> EdgeRaises(d, i)
  {
    issues, valid := {}, {};
    var todo := d.edges;
    while todo != {}
      invariant todo <= d.edges
      invariant forall e :: e in valid <==> e in ValidHandoffs(d) && e !in todo
      invariant forall i :: i in issues <==>
                  || (i.UndeclaredStage? && exists e :: e in d.edges - todo && e.src == i.src && e.dst == i.dst
                                                        && (i.src !in d.stages || i.dst !in d.stages))
                  || (i.SelfLoop? && i.stage in d.stages && exists e :: e in d.edges - todo && e.src == e.dst == i.stage)
      decreases todo
    {
      var e :| e in todo;
      todo := todo - {e};
      if e.src !in d.stages || e.dst !in d.stages {
        issues := issues + {UndeclaredStage(e.src, e.dst)};
      } else if e.src == e.dst {
        issues := issues + {SelfLoop(e.src)};
      } else {
        valid := valid + {e};
      }
    }
  }

  method GraphIssues(d: Draft, edges: set<HandoffEdge>) returns (issues: set<Issue>)
    requires d.stages != map[] && edges == ValidHandoffs(d)
    ensures forall i :: i in issues <==> GraphRaises(d, i)
  {
    var ids := d.stages.Keys;
    var some :| some in d.stages;
    assert some in ids;
    var orphan, twisted := CheckEnds(ids, edges);
    var connected := IsConnected(ids, edges);
    var order, cyclic := CycleDetection.TopologicalOrder(ids, edges);
    issues := Flagged(orphan, !connected, cyclic, !cyclic && twisted);
    forall i ensures i in issues <==> GraphRaises(d, i) {
      FlagsAreGraphIssues(d, i, orphan, connected, cyclic, twisted);
    }
  }

  /** Stages without a neighbour, and more or fewer than one entry and one exit. */
  method CheckEnds(ids: set<string>, edges: set<HandoffEdge>) returns (orphan: bool, twisted: bool)
    ensures orphan == HasOrphan(ids, edges)
    ensures twisted == (|ids| > 1 && (|Entries(ids, edges)| != 1 || |Exits(ids, edges)| != 1))
  {
    var sources, targets := (set e | e in edges :: e.src), (set e | e in edges :: e.dst);
    OrphansHaveNoNeighbours(ids, edges, sources + targets);
    EndsByEdges(ids, edges);
    orphan := |ids| > 1 && !(ids <= sources + targets);
    twisted := |ids| > 1 && (|ids - targets| != 1 || |ids - sources| != 1);
  }

  lemma OrphansHaveNoNeighbours(ids: set<string>, edges: set<HandoffEdge>, neighbours: set<string>)
    requires neighbours == (set e | e in edges :: e.src) + set e | e in edges :: e.dst
    ensures HasOrphan(ids, edges) <==> |ids| > 1 && !(ids <= neighbours)
  {
    forall n | n in ids ensures IsOrphan(edges, n) <==> n !in neighbours {
      forall e | e in edges && (e.src == n || e.dst == n) ensures !IsOrphan(edges, n) {
        assert e in CycleDetection.In(edges, n) || e in CycleDetection.Out(edges, n);
      }
    }
  }

  lemma EndsByEdges(ids: set<string>, edges: set<HandoffEdge>)
    ensures Entries(ids, edges) == ids - set e | e in edges :: e.dst
    ensures Exits(ids, edges) == ids - set e | e in edges :: e.src
  {
    forall n | n in ids ensures n in Entries(ids, edges) <==> forall e :: e in edges ==> e.dst != n {
      forall e | e in edges && e.dst == n ensures e in CycleDetection.In(edges, n) {}
    }
    forall n | n in ids ensures n in Exits(ids, edges) <==> forall e :: e in edges ==> e.src != n {
      forall e | e in edges && e.src == n ensures e in CycleDetection.Out(edges, n) {}
    }
  }

  lemma FlagsAreGraphIssues(d: Draft, i: Issue, orphan: bool, connected: bool, cyclic: bool, twisted: bool)
    requires orphan == HasOrphan(d.stages.Keys, ValidHandoffs(d))
    requires connected == Connected(d.stages.Keys, ValidHandoffs(d))
    requires cyclic == Cyclic(ValidHandoffs(d))
    requires twisted == (|d.stages| > 1 && !OneEntryOneExit(d))
    ensures i in Flagged(orphan, !connected, cyclic, !cyclic && twisted) <==> GraphRaises(d, i)
  {}

  function Flagged(orphan: bool, disconnected: bool, cyclic: bool, twisted: bool): (issues: set<Issue>)
    ensures Orphan in issues <==> orphan
    ensures Disconnected in issues <==> disconnected
    ensures CycleFound in issues <==> cyclic
    ensures EntryExit in issues <==> twisted
    ensures forall i :: i in issues ==> i.Orphan? || i.Disconnected? || i.CycleFound? || i.EntryExit?
  {
    (if orphan then {Orphan} else {}) + (if disconnected then {Disconnected} else {})
    + (if cyclic then {CycleFound} else {}) + (if twisted then {EntryExit} else {})
  }

  method PatternIssues(d: Draft, p: Pattern) returns (issues: set<Issue>)
    ensures forall i :: i in issues <==> PatternRaises(d, p, i)
  {
    var slots := CheckSlots(d, p);
    var edges := CheckPatternEdges(d, p);
    issues := Mismatched(d.patternId != p.id, !slots, !edges);
    MismatchesArePatternIssues(d, p, slots, edges);
  }

  lemma MismatchesArePatternIssues(d: Draft, p: Pattern, slots: bool, edges: bool)
    requires slots == MatchesSlots(d, p) && edges == MatchesEdges(d, p)
    ensures forall i :: i in Mismatched(d.patternId != p.id, !slots, !edges) <==> PatternRaises(d, p, i)
  {}

  /** The stages and roles of the draft against those of the pattern's slots. */
  method CheckSlots(d: Draft, p: Pattern) returns (ok: bool)
    ensures ok <==> MatchesSlots(d, p)
  {
    for i := 0 to |p.slots|
      invariant forall k :: 0 <= k < i ==> p.slots[k].stage in d.stages && d.stages[p.slots[k].stage].role == p.slots[k].role
    {
      var s := p.slots[i];
      if s.stage !in d.stages || d.stages[s.stage].role != s.role {
        assert s in p.slots;
        return false;
      }
    }
    var expected := set s | s in p.slots :: s.stage;
    ExpectedStages(p, expected);
    return d.stages.Keys == expected;
  }

  lemma ExpectedStages(p: Pattern, expected: set<string>)
    requires expected == set s | s in p.slots :: s.stage
    ensures expected == Elements(Stages(p.slots))
  {
    forall x ensures x in expected <==> x in Elements(Stages(p.slots)) {
      if s :| s in p.slots && s.stage == x {
        var i :| 0 <= i < |p.slots| && p.slots[i] == s;
        assert Stages(p.slots)[i] == x;
      }
      if x in Stages(p.slots) {
        var i :| 0 <= i < |Stages(p.slots)| && Stages(p.slots)[i] == x;
        assert p.slots[i] in p.slots;
      }
    }
  }

  /** The valid handoffs, without their artifacts, against the edges of the pattern. */
  method CheckPatternEdges(d: Draft, p: Pattern) returns (ok: bool)
    ensures ok <==> MatchesEdges(d, p)
  {
    var valid := set e | e in d.edges && e.src != e.dst && e.src in d.stages && e.dst in d.stages;
    var actual: set<PatternEdge> := set e | e in valid :: Arc(e.src, e.dst, e.tag.dependency);
    assert valid == ValidHandoffs(d);
    return actual == p.edges && |valid| == |p.edges|;
  }

  function Mismatched(identity: bool, slots: bool, edges: bool): (issues: set<Issue>)
    ensures PatternIdentity in issues <==> identity
    ensures PatternSlots in issues <==> slots
    ensures PatternEdges in issues <==> edges
    ensures forall i :: i in issues ==> i.PatternIdentity? || i.PatternSlots? || i.PatternEdges?
  {
    (if identity then {PatternIdentity} else {}) + (if slots then {PatternSlots} else {})
    + (if edges then {PatternEdges} else {})
  }

  method TopologyIssues(d: Draft, p: Pattern) returns (issues: set<Issue>)
    ensures forall i :: i in issues <==> TopologyRaises(d, p, i)
  {
    if |d.stages| == 0 || |d.stages| > 3 {
      return {NodeCount};
    }
    var loop, edges := EdgeLoop(d);
    var graph := GraphIssues(d, edges);
    var pattern := PatternIssues(d, p);
    issues := loop + graph + pattern;
  }

  method IdentityIssues(d: Draft, c: ValidationContext, compatible: Compatibility, p: Pattern) returns (issues: set<Issue>)
    requires IsRegistry(c.registry)
    ensures forall i :: i in issues <==> IdentityRaises(d, c, compatible, p, i)
  {
    issues := {};
    var u := d.upstream;
    if !Nonblank(u.requestId) || !Nonblank(u.workloadId) || !Nonblank(u.sessionId) || !Nonblank(u.graphId) || u != c.upstream {
      issues := issues + {UpstreamMismatch};
    }
    var todo := d.stages.Keys;
    while todo != {}
      invariant todo <= d.stages.Keys
      invariant forall i :: i in issues <==>
                  IdentityRaises(d, c, compatible, p, i) && !i.RepeatedPrimary?
                  && (i.Unregistered? || i.Incompatible? ==> i.stage !in todo)
      decreases todo
    {
      var stage :| stage in todo;
      todo := todo - {stage};
      var record := d.stages[stage].record;
      var registered := Lookup(c.registry, record.identity);
      if record in c.registry && registered.Some? { RegistryIdentitiesUnique(c.registry, record, registered.value); }
      if registered.None? || registered.value != record {
        issues := issues + {Unregistered(stage)};
      }
      if !compatible(record, d.stages[stage].requirements) {
        issues := issues + {Incompatible(stage)};
      }
    }
    if p.topology in {PrimarySpecialistPrimary, PrimaryRetrievalPrimary, PrimaryToolPrimary} {
      var preserved := CheckPrimaries(d);
      if !preserved { issues := issues + {RepeatedPrimary}; }
    }
  }

  /** Two PRIMARY stages, and one identity between them. */
  method CheckPrimaries(d: Draft) returns (ok: bool)
    ensures ok <==> OnePrimaryModel(d)
  {
    var primaries := set s | s in d.stages && d.stages[s].role == Primary;
    if |primaries| != 2 {
      return false;
    }
    var a :| a in primaries;
    assert |primaries - {a}| == 1;
    var b :| b in primaries - {a};
    assert |primaries - {a} - {b}| == 0;
    assert primaries == {a, b} == Primaries(d);
    return d.stages[a].record.identity == d.stages[b].record.identity;
  }

  method CoverageIssues(d: Draft, c: ValidationContext) returns (issues: set<Issue>)
    ensures forall i :: i in issues <==> CoverageRaises(d, c, i)
  {
    issues := {};
    if !(c.hard <= d.satisfied) { issues := issues + {Uncovered}; }
    var justified: set<string> := {};
    var todo := d.stages.Keys;
    while todo != {}
      invariant todo <= d.stages.Keys
      invariant justified == set s, id | s in d.stages.Keys - todo && id in d.stages[s].justified && Nonblank(id) :: id
      invariant forall i :: i in issues <==>
                  CoverageRaises(d, c, i) && !i.Unjustified?
                  && (i.NoJustification? || i.BlankJustification? ==> i.stage !in todo)
      decreases todo
    {
      var stage :| stage in todo;
      todo := todo - {stage};
      var ids := d.stages[stage].justified;
      if ids == {} {
        issues := issues + {NoJustification(stage)};
      } else if exists id :: id in ids && !Nonblank(id) {
        issues := issues + {BlankJustification(stage)};
      }
      justified := justified + set id | id in ids && Nonblank(id);
    }
    assert justified == JustifiedIds(d);
    if !(d.satisfied <= justified) { issues := issues + {Unjustified}; }
  }

  method EvidenceIssues(d: Draft) returns (issues: set<Issue>)
    ensures forall i :: i in issues <==> EvidenceRaises(d, i)
  {
    issues := {};
    var todo := d.assessments;
    while todo != {}
      invariant todo <= d.assessments
      invariant forall i :: i in issues <==> EvidenceRaises(d, i) && i.assessment !in todo
      decreases todo
    {
      var a :| a in todo;
      todo := todo - {a};
      var r := a.requirements;
      var flags := [r.requiresEvidence, r.requiresCurrent, r.requiresMeasured, r.requiresProduction, r.rejectsConflicts];
      assert true in flags <==> ExplicitlyRequired(r) by {
        assert flags[0] == r.requiresEvidence && flags[1] == r.requiresCurrent && flags[2] == r.requiresMeasured;
        assert flags[3] == r.requiresProduction && flags[4] == r.rejectsConflicts;
      }
      if true in flags && a.status != Acceptable {
        issues := issues + {RequiredEvidence(a)};
      }
    }
  }

  method HandoffFaults(src: Stage, dst: Stage, e: HandoffEdge) returns (issues: set<Issue>)
    ensures forall i :: i in issues <==> HandoffFault(src, dst, e, i)
  {
    issues := {};
    var id := e.tag.artifact;
    if id !in src.outputs {
      issues := issues + {UndeclaredArtifact(e)};
      var structured := CarriesStructure(src.outputs);
      if structured { issues := issues + {StructureReplaced(e)}; }
    } else {
      var carried := src.outputs[id];
      var accepted := set a, m | a in dst.inputs && m in dst.inputs[a].modalities :: m;
      assert accepted == Accepted(dst.inputs);
      if carried.modalities * accepted == {} { issues := issues + {ModalityMismatch(e)}; }
      var structured := CarriesStructure(dst.inputs);
      if carried.structured && !structured { issues := issues + {StructureLost(e)}; }
    }
    var generic := IsGeneric(src.role, id);
    if generic { issues := issues + {GenericHandoff(e)}; }
  }

  method CarriesStructure(artifacts: map<string, Artifact>) returns (structured: bool)
    ensures structured <==> KeepsStructure(artifacts)
  {
    var todo := artifacts.Keys;
    while todo != {}
      invariant todo <= artifacts.Keys
      invariant forall a :: a in artifacts.Keys - todo ==> !artifacts[a].structured && Structured !in artifacts[a].modalities
      decreases todo
    {
      var a :| a in todo;
      todo := todo - {a};
      if artifacts[a].structured || Structured in artifacts[a].modalities {
        return true;
      }
    }
    return false;
  }

  /** The artifact lacks the word that the role's outputs must bear. */
  method IsGeneric(role: Role, id: string) returns (generic: bool)
    ensures generic <==> Marker(role).Some? && !Contains(id, Marker(role).value)
  {
    if role !in SEMANTIC_ROLES {
      return false;
    }
    var bears := IsPartOf(SEMANTIC_ROLES[role], id);
    return !bears;
  }

  const SEMANTIC_ROLES: map<Role, string> := map[
    RetrievalAugmenter := "retrieval", ToolModel := "tool", Specialist := "specialist"]

  /** marker in text. */
  method IsPartOf(marker: string, text: string) returns (found: bool)
    ensures found <==> Contains(text, marker)
  {
    for i := 0 to |text| + 1
      invariant forall k :: 0 <= k < i ==> !StartsAt(text, marker, k)
    {
      StartsExactly(text, marker, i);
      if i + |marker| <= |text| && text[i..i + |marker|] == marker {
        return true;
      }
    }
    return false;
  }

  lemma StartsExactly(text: string, marker: string, i: nat)
    requires i <= |text|
    ensures StartsAt(text, marker, i) <==> i + |marker| <= |text| && text[i..i + |marker|] == marker
  {
    if i + |marker| <= |text| {
      assert text[i..][..|marker|] == text[i..i + |marker|];
    }
  }

  method HandoffIssues(d: Draft) returns (issues: set<Issue>)
    ensures forall i :: i in issues <==> HandoffRaises(d, i)
  {
    issues := {};
    var todo := d.edges;
    while todo != {}
      invariant todo <= d.edges
      invariant forall i :: i in issues <==>
                  exists e :: Joins(d, e) && e !in todo && HandoffFault(d.stages[e.src], d.stages[e.dst], e, i)
      decreases todo
    {
      var e :| e in todo;
      todo := todo - {e};
      if e.src in d.stages && e.dst in d.stages {
        var more := HandoffFaults(d.stages[e.src], d.stages[e.dst], e);
        assert Joins(d, e);
        issues := issues + more;
      }
    }
  }

  method ProvenanceIssues(d: Draft) returns (issues: set<Issue>)
    ensures forall i :: i in issues <==> ProvenanceRaises(d, i)
  {
    issues := {};
    if |d.provenance| == 0 {
      issues := issues + {NoProvenance};
    } else if exists r :: r in d.provenance && !Nonblank(r.artifact) {
      issues := issues + {BlankProvenance};
    }
    issues := issues + set s | s in d.stages && d.stages[s].provenance == {} :: NoStageProvenance(s);
  }

  /** The id of the draft's own content, stage by stage. */
  method RecomputeId(d: Draft, p: Pattern) returns (id: Option<CompositionId>)
    ensures id == RecomputedId(d, p)
  {
    var stages: seq<StageIdentity> := [];
    for i := 0 to |p.slots|
      invariant |stages| == i
      invariant forall k :: 0 <= k < i ==> p.slots[k].stage in d.stages && stages[k] == Recomputed(d, p.slots[k])
    {
      var slot := p.slots[i];
      if slot.stage !in d.stages {
        assert slot in p.slots;
        return None;
      }
      var node := d.stages[slot.stage];
      stages := stages + [StageIdentity(slot.stage, slot.role, node.record.identity, node.justified, node.requirements)];
    }
    assert forall s :: s in p.slots ==> s.stage in d.stages;
    assert stages == RecomputedId(d, p).value.stages;
    return Some(CompositionId(d.upstream, p.topology, stages, p.edges));
  }

  /** The whole validator: it reports exactly the issues that hold. */
  method ValidateCompositionCandidate(d: Draft, c: ValidationContext, compatible: Compatibility, p: Pattern)
    returns (issues: set<Issue>)
    requires IsRegistry(c.registry)
    ensures forall i :: i in issues <==> Raises(d, c, compatible, p, i)
    ensures issues == {} <==> Passes(d, c, compatible, p)
  {
    var topology := TopologyIssues(d, p);
    var identity := IdentityIssues(d, c, compatible, p);
    var coverage := CoverageIssues(d, c);
    var evidence := EvidenceIssues(d);
    var handoff := HandoffIssues(d);
    var provenance := ProvenanceIssues(d);
    issues := topology + identity + coverage + evidence + handoff + provenance;
    var id := RecomputeId(d, p);
    if id != Some(d.id) {
      issues := issues + {WrongId};
    }
    assert issues == {} <==> forall i :: i !in issues;
  }
}
