/** Composition drafts: what instantiation builds from each binding, and which drafts a request has. */
module CompositionDrafts {
  import opened IntelligenceModels
  import opened Digraph
  import opened Paths
  import opened ExecutionGraphs
  import opened CompositionPatterns
  import opened CompositionBindings
  import opened CompositionInstantiation
  import opened ModelRegistry
  import opened Texts
  import Orders

  datatype Stage = Stage(
    role: Role, record: Record, requirements: Requirements,
    inputs: map<string, Artifact>, outputs: map<string, Artifact>,
    justified: set<string>, provenance: set<Reference>)

  /** What a logical handoff carries besides its ends. */
  datatype Handoff = Handoff(dependency: Dependency, artifact: string)

  type HandoffEdge = Arc<Handoff>

  datatype StageIdentity = StageIdentity(
    stage: string, role: Role, model: Identity, ids: set<string>, requirements: Requirements)

  /** The digest is injective, so an id is the content it is computed from. */
  datatype CompositionId = CompositionId(
    upstream: Upstream, topology: Topology, stages: seq<StageIdentity>, edges: set<PatternEdge>)

  datatype Draft = Draft(
    id: CompositionId, upstream: Upstream, patternId: string, topology: Topology,
    stages: map<string, Stage>, edges: set<HandoffEdge>,
    satisfied: set<string>, assessments: set<Assessment>, provenance: set<Reference>)

  // ----- one draft

  function RecordText(r: Record): string {
    r.identity.provider + "/" + r.identity.modelId + "/" + r.identity.family + "/" + r.identity.revision
  }

  function StageProvenance(requirement: RoleRequirement, r: Record): set<Reference> {
    requirement.provenance
    + {Reference(4, RecordText(r)), Reference(4, "compatibility:" + RecordText(r))}
  }

  function StageOf(role: Role, requirement: RoleRequirement, r: Record): Stage {
    Stage(role, r, requirement.requirements, requirement.inputs, requirement.outputs, requirement.ids,
          StageProvenance(requirement, r))
  }

  /** The first output artifact of a canonical tuple: the one with the least id. */
  ghost function FirstOutput(requirement: RoleRequirement): (id: string)
    requires requirement.outputs != map[]
    ensures id in requirement.outputs
  {
    Orders.Least(requirement.outputs.Keys)
  }

  ghost function HandoffAt(q: Request, p: Pattern, needs: Needs, i: nat): HandoffEdge
    requires Usable(needs, p) && i + 1 < |p.slots|
  {
    var slot := p.slots[i];
    assert slot in p.slots;
    Arc(slot.stage, p.slots[i+1].stage, Handoff(Data, FirstOutput(needs[slot.role])))
  }

  function TopologyValue(t: Topology): string {
    match t
    case Single => "single"
    case PrimaryVerifier => "primary_verifier"
    case PrimaryCritic => "primary_critic"
    case PrimarySpecialistPrimary => "primary_specialist_primary"
    case PrimaryRetrievalPrimary => "primary_retrieval_primary"
    case PrimaryToolPrimary => "primary_tool_primary"
    case PrimarySpecialistVerifier => "primary_specialist_verifier"
  }

  function Dashed(s: string): string { seq(|s|, i requires 0 <= i < |s| => if s[i] == '_' then '-' else s[i]) }

  /** A pattern's id is its topology's value, with dashes. */
  lemma PatternIdIsDashedTopology(t: Topology)
    ensures PatternId(t) == "pattern-" + Dashed(TopologyValue(t)) + "-v1"
  {
    match t
    case Single => IdOfValue("pattern-single-v1", "single");
    case PrimaryVerifier => IdOfValue("pattern-primary-verifier-v1", "primary_verifier");
    case PrimaryCritic => IdOfValue("pattern-primary-critic-v1", "primary_critic");
    case PrimarySpecialistPrimary => SpecialistPatternId();
    case PrimaryRetrievalPrimary => RetrievalPatternId();
    case PrimaryToolPrimary => ToolPatternId();
    case PrimarySpecialistVerifier => VerifiedPatternId();
  }

  lemma SpecialistPatternId()
    ensures PatternId(PrimarySpecialistPrimary) == "pattern-" + Dashed(TopologyValue(PrimarySpecialistPrimary)) + "-v1"
  {
    IdOfValue("pattern-primary-specialist-primary-v1", "primary_specialist_primary");
  }

  lemma RetrievalPatternId()
    ensures PatternId(PrimaryRetrievalPrimary) == "pattern-" + Dashed(TopologyValue(PrimaryRetrievalPrimary)) + "-v1"
  {
    IdOfValue("pattern-primary-retrieval-primary-v1", "primary_retrieval_primary");
  }

  lemma ToolPatternId()
    ensures PatternId(PrimaryToolPrimary) == "pattern-" + Dashed(TopologyValue(PrimaryToolPrimary)) + "-v1"
  {
    IdOfValue("pattern-primary-tool-primary-v1", "primary_tool_primary");
  }

  lemma VerifiedPatternId()
    ensures PatternId(PrimarySpecialistVerifier) == "pattern-" + Dashed(TopologyValue(PrimarySpecialistVerifier)) + "-v1"
  {
    IdOfValue("pattern-primary-specialist-verifier-v1", "primary_specialist_verifier");
  }

  /** A plain stage is named by the value of its role, with dashes. */
  lemma StageNameIsDashedRole(r: Role)
    ensures StageName(r) == Dashed(RoleValue(r))
  {
    assert |StageName(r)| == |RoleValue(r)|;
    assert forall i :: 0 <= i < |RoleValue(r)| ==> StageName(r)[i] == Dashed(RoleValue(r))[i];
  }

  lemma IdOfValue(id: string, value: string)
    requires |id| == |value| + 11 && id[..8] == "pattern-" && id[|value| + 8..] == "-v1"
    requires forall i :: 0 <= i < |value| ==> id[i + 8] == if value[i] == '_' then '-' else value[i]
    ensures id == "pattern-" + Dashed(value) + "-v1"
  {
    assert id == id[..8] + id[8..|value| + 8] + id[|value| + 8..];
    assert id[8..|value| + 8] == Dashed(value);
  }

  function DraftProvenance(u: Upstream, fingerprint: string, pattern: string, reason: string): set<Reference> {
    {Reference(2, u.requestId), Reference(3, u.graphId), Reference(4, fingerprint), Reference(5, pattern),
     Reference(5, "reason:" + reason)}
  }

  function StageIdentityAt(q: Request, p: Pattern, needs: Needs, b: Binding, i: nat): StageIdentity
    requires Usable(needs, p) && |b| == |p.slots| && i < |b|
  {
    var slot := p.slots[i];
    assert slot in p.slots;
    var requirement := needs[slot.role];
    StageIdentity(slot.stage, slot.role, b[i].identity, requirement.ids, requirement.requirements)
  }

  function SemanticId(q: Request, p: Pattern, needs: Needs, b: Binding): CompositionId
    requires Usable(needs, p) && |b| == |p.slots|
  {
    CompositionId(q.upstream, p.topology, seq(|b|, i requires 0 <= i < |b| => StageIdentityAt(q, p, needs, b, i)), p.edges)
  }

  /** The slot of a stage of the certified pattern. */
  function IndexOf(p: Pattern, stage: string): (i: nat)
    requires stage in Stages(p.slots)
    ensures i < |p.slots| && p.slots[i].stage == stage
  {
    assert Stages(p.slots)[Position(Stages(p.slots), stage)] == stage;
    Position(Stages(p.slots), stage)
  }

  lemma IndexOfStage(p: Pattern, i: nat)
    requires Shaped(p) && i < |p.slots|
    ensures p.slots[i].stage in Stages(p.slots) && IndexOf(p, p.slots[i].stage) == i
  {
    assert Stages(p.slots)[i] == p.slots[i].stage;
  }

  function StageAt(q: Request, p: Pattern, needs: Needs, b: Binding, i: nat): Stage
    requires Usable(needs, p) && |b| == |p.slots| && i < |b|
  {
    var role := p.slots[i].role;
    assert p.slots[i] in p.slots;
    StageOf(role, needs[role], b[i])
  }

  function StagesOf(q: Request, p: Pattern, needs: Needs, b: Binding): (m: map<string, Stage>)
    requires Usable(needs, p) && |b| == |p.slots|
    ensures m.Keys == Elements(Stages(p.slots))
  {
    map stage | stage in Elements(Stages(p.slots)) :: StageAt(q, p, needs, b, IndexOf(p, stage))
  }

  ghost function HandoffsOf(q: Request, p: Pattern, needs: Needs): set<HandoffEdge>
    requires Usable(needs, p)
  {
    set e | e in HandoffList(q, p, needs)
  }

  ghost function HandoffList(q: Request, p: Pattern, needs: Needs): seq<HandoffEdge>
    requires Usable(needs, p)
  {
    seq(|p.slots| - 1, i requires 0 <= i < |p.slots| - 1 => HandoffAt(q, p, needs, i))
  }

  function SatisfiedIds(p: Pattern, needs: Needs): set<string>
    requires Usable(needs, p)
  {
    set role, id | role in RolesOf(p) && id in needs[role].ids :: id
  }

  function RelevantAssessments(q: Request, p: Pattern): set<Assessment> {
    set c | c in q.constraints && c.role in RolesOf(p) :: c.assessed
  }

  ghost function DraftOf(q: Request, p: Pattern, needs: Needs, b: Binding): Draft
    requires Usable(needs, p) && |b| == |p.slots|
  {
    Draft(SemanticId(q, p, needs, b), q.upstream, p.id, p.topology, StagesOf(q, p, needs, b), HandoffsOf(q, p, needs),
          SatisfiedIds(p, needs), RelevantAssessments(q, p),
          DraftProvenance(q.upstream, q.fingerprint, p.id, TopologyValue(p.topology)))
  }

  /** What the draft's own constructor checks; its raises are the reason instantiation could fail. */
  ghost predicate WellFormedDraft(d: Draft) {
    && 1 <= |d.stages| <= MAX_COMPOSITION_NODES
    && IsConnectedDag(d.stages.Keys, d.edges)
    && NonblankUpstream(d.upstream) && Nonblank(d.patternId)
    && d.satisfied != {} && (forall id :: id in d.satisfied ==> Nonblank(id))
    && d.provenance != {} && (forall p :: p in d.provenance ==> Sound(p))
    && (forall s :: s in d.stages ==> WellFormedStage(d.stages[s]))
  }

  predicate WellFormedStage(s: Stage) {
    && WellFormedArtifacts(s.inputs) && WellFormedArtifacts(s.outputs)
    && s.justified != {} && (forall id :: id in s.justified ==> Nonblank(id))
    && s.provenance != {} && (forall p :: p in s.provenance ==> Sound(p))
  }

  lemma EdgesAlong<L>(ids: seq<string>, along: seq<Arc<L>>, edges: set<Arc<L>>)
    requires Distinct(ids) && |along| + 1 == |ids| && edges == set e | e in along
    requires forall i :: 0 <= i < |along| ==> along[i].src == ids[i] && along[i].dst == ids[i+1]
    ensures IsPath(ids, edges)
  {
    forall e | e in edges ensures exists i {:trigger ids[i]} :: 0 <= i < |ids| - 1 && e.src == ids[i] && e.dst == ids[i+1] {
      var i :| 0 <= i < |along| && along[i] == e;
      assert e.src == ids[i];
    }
    forall i | 0 <= i < |ids| - 1 ensures Linked(edges, ids[i], ids[i+1]) {
      assert along[i] in edges;
    }
  }

  lemma HandoffEnds(q: Request, p: Pattern, needs: Needs, i: nat)
    requires Usable(needs, p) && i < |p.slots| - 1
    ensures HandoffAt(q, p, needs, i).src == Stages(p.slots)[i] && HandoffAt(q, p, needs, i).dst == Stages(p.slots)[i+1]
  {}

  lemma HandoffsMakeAPath(q: Request, p: Pattern, needs: Needs)
    requires Shaped(p) && Usable(needs, p)
    ensures IsPath(Stages(p.slots), HandoffsOf(q, p, needs))
  {
    forall i | 0 <= i < |HandoffList(q, p, needs)|
      ensures HandoffList(q, p, needs)[i].src == Stages(p.slots)[i] && HandoffList(q, p, needs)[i].dst == Stages(p.slots)[i+1]
    {
      HandoffEnds(q, p, needs, i);
    }
    EdgesAlong(Stages(p.slots), HandoffList(q, p, needs), HandoffsOf(q, p, needs));
  }

  lemma RecordReferencesAreSound(requirement: RoleRequirement, r: Record)
    requires WellFormedRequirement(requirement)
    ensures forall p :: p in StageProvenance(requirement, r) ==> Sound(p)
  {
    assert RecordText(r)[|r.identity.provider|] == '/';
    NonblankInside(RecordText(r), |r.identity.provider|);
    NonblankHead("compatibility:" + RecordText(r));
  }

  lemma StageIsWellFormed(q: Request, p: Pattern, needs: Needs, b: Binding, i: nat)
    requires WellFormedRequest(q) && Shaped(p) && Covers(needs, p) && |b| == |p.slots| && i < |b|
    ensures WellFormedStage(StageAt(q, p, needs, b, i))
  {
    var role := p.slots[i].role;
    assert p.slots[i] in p.slots;
    RecordReferencesAreSound(needs[role], b[i]);
  }

  lemma DraftProvenanceIsSound(u: Upstream, fingerprint: string, pattern: string, reason: string)
    requires NonblankUpstream(u) && Nonblank(fingerprint) && Nonblank(pattern)
    ensures DraftProvenance(u, fingerprint, pattern, reason) != {}
    ensures forall p :: p in DraftProvenance(u, fingerprint, pattern, reason) ==> Sound(p)
  {
    NonblankHead("reason:" + reason);
    assert Reference(5, pattern) in DraftProvenance(u, fingerprint, pattern, reason);
  }

  lemma SatisfiedIdsAreNonblank(p: Pattern, needs: Needs)
    requires Shaped(p) && Covers(needs, p)
    ensures SatisfiedIds(p, needs) != {} && forall id :: id in SatisfiedIds(p, needs) ==> Nonblank(id)
  {
    forall role | role in RolesOf(p) ensures WellFormedRequirement(needs[role]) {
      }
    var slot := p.slots[0];
    assert slot in p.slots && slot.role in RolesOf(p);
    var id :| id in needs[slot.role].ids;
    assert id in SatisfiedIds(p, needs);
  }

  /** The contract of a stage, check by check. */
  method CheckStage(s: Stage) returns (ok: bool)
    ensures ok <==> WellFormedStage(s)
  {
    if |s.inputs| == 0 || exists id :: id in s.inputs && s.inputs[id].modalities == {} {
      return false;
    }
    if |s.outputs| == 0 || exists id :: id in s.outputs && s.outputs[id].modalities == {} {
      return false;
    }
    if |s.justified| == 0 || exists id :: id in s.justified && !Nonblank(id) {
      return false;
    }
    return |s.provenance| > 0 && !exists p :: p in s.provenance && !Nonblank(p.artifact);
  }

  method CheckStages(stages: map<string, Stage>) returns (ok: bool)
    ensures ok <==> forall s :: s in stages ==> WellFormedStage(stages[s])
  {
    var todo := stages.Keys;
    while todo != {}
      invariant todo <= stages.Keys && forall s :: s in stages.Keys - todo ==> WellFormedStage(stages[s])
      decreases todo
    {
      var s :| s in todo;
      todo := todo - {s};
      var sound := CheckStage(stages[s]);
      if !sound {
        return false;
      }
    }
    return true;
  }

  /** The contract of a draft, check by check. */
  method CheckDraft(d: Draft) returns (ok: bool)
    ensures ok <==> WellFormedDraft(d)
  {
    if |d.stages| == 0 || |d.stages| > 3 {
      return false;
    }
    var u := d.upstream;
    if !Nonblank(u.requestId) || !Nonblank(u.workloadId) || !Nonblank(u.sessionId) || !Nonblank(u.graphId) {
      return false;
    }
    if !Nonblank(d.patternId) {
      return false;
    }
    if |d.satisfied| == 0 || exists id :: id in d.satisfied && !Nonblank(id) {
      return false;
    }
    if |d.provenance| == 0 || exists p :: p in d.provenance && !Nonblank(p.artifact) {
      return false;
    }
    var sound := CheckStages(d.stages);
    if !sound {
      return false;
    }
    var some :| some in d.stages;
    ok := GraphIsAConnectedDag(d.stages.Keys, d.edges);
  }

  /** Building a draft never raises: every binding yields a connected acyclic draft whose contracts
      hold. */
  lemma DraftIsWellFormed(q: Request, p: Pattern, needs: Needs, b: Binding)
    requires WellFormedRequest(q) && Shaped(p) && Covers(needs, p) && |b| == |p.slots|
    ensures WellFormedDraft(DraftOf(q, p, needs, b))
  {
    var d := DraftOf(q, p, needs, b);
    DistinctSize(Stages(p.slots));
    assert |d.stages| == |d.stages.Keys| == |p.slots|;
    HandoffsMakeAPath(q, p, needs);
    PathIsConnectedDag(Stages(p.slots), d.edges);
    DraftProvenanceIsSound(q.upstream, q.fingerprint, p.id, TopologyValue(p.topology));
    SatisfiedIdsAreNonblank(p, needs);
    forall s | s in d.stages ensures WellFormedStage(d.stages[s]) {
      StageIsWellFormed(q, p, needs, b, IndexOf(p, s));
    }
  }
}
