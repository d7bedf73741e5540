/** Instantiation of composition drafts: applicable patterns, role requirements, candidate records,
    bindings, and the drafts built from them. */
module CompositionInstantiation {
  import opened IntelligenceModels
  import opened Digraph
  import opened ExecutionGraphs
  import opened CompositionPatterns
  import opened CompositionBindings
  import opened ModelRegistry
  import opened Texts

  // ----- requests

  /** A provenance reference: a phase of the control plane and an artifact of that phase. */
  datatype Reference = Reference(phase: nat, artifact: string)

  datatype Artifact = Artifact(modalities: set<ModelModality>, structured: bool)

  datatype RoleRequirement = RoleRequirement(
    ids: set<string>, requirements: Requirements,
    inputs: map<string, Artifact>, outputs: map<string, Artifact>, provenance: set<Reference>)

  datatype EvidenceRequirements = EvidenceRequirements(
    claim: string, requiresEvidence: bool, requiresCurrent: bool, requiresMeasured: bool,
    requiresProduction: bool, rejectsConflicts: bool)

  datatype AssessmentStatus = Acceptable | Insufficient | Conflicting | Stale | Unverified

  /** The outcome of assessing the evidence for one claim. */
  datatype Assessment = Assessment(requirements: EvidenceRequirements, status: AssessmentStatus)

  datatype Constraint = Constraint(role: Role, assessed: Assessment)

  datatype Upstream = Upstream(requestId: string, workloadId: string, sessionId: string, graphId: string)

  datatype Request = Request(
    upstream: Upstream, profile: Profile, explicitModalities: set<string>, graph: ExecutionGraph,
    registry: seq<Record>, fingerprint: string,
    explicit: map<Role, RoleRequirement>, constraints: seq<Constraint>, required: bool)

  predicate Sound(r: Reference) { Nonblank(r.artifact) }

  predicate WellFormedArtifacts(a: map<string, Artifact>) {
    a != map[] && forall id :: id in a ==> a[id].modalities != {}
  }

  predicate WellFormedRequirement(r: RoleRequirement) {
    && r.ids != {} && (forall id :: id in r.ids ==> Nonblank(id))
    && WellFormedArtifacts(r.inputs) && WellFormedArtifacts(r.outputs)
    && r.provenance != {} && (forall p :: p in r.provenance ==> Sound(p))
  }

  predicate NonblankUpstream(u: Upstream) {
    Nonblank(u.requestId) && Nonblank(u.workloadId) && Nonblank(u.sessionId) && Nonblank(u.graphId)
  }

  /** What the contracts of the request's parts establish. */
  ghost predicate WellFormedRequest(q: Request) {
    && NonblankUpstream(q.upstream) && Nonblank(q.fingerprint) && IsRegistry(q.registry)
    && (forall r :: r in q.explicit ==> WellFormedRequirement(q.explicit[r]))
  }

  // ----- derived role requirements

  function OfWorkload(m: Modality): Option<ModelModality> {
    match m
    case Text => Some(TextData)
    case Code => Some(TextData)
    case Image => Some(ImageData)
    case Audio => Some(AudioData)
    case Video => Some(VideoData)
    case StructuredData => Some(Structured)
    case Multimodal => None
  }

  function OfName(s: string): Option<ModelModality> {
    if s == "text" || s == "code" then Some(TextData)
    else if s == "image" then Some(ImageData)
    else if s == "audio" then Some(AudioData)
    else if s == "video" then Some(VideoData)
    else if s == "embedding" then Some(Embedding)
    else if s == "structured_data" then Some(Structured)
    else None
  }

  /** The modalities of the workload in the registry's vocabulary. */
  function ModelModalities(q: Request): set<ModelModality> {
    (set m | m in q.profile.modalities && OfWorkload(m).Some? :: OfWorkload(m).value)
    + (if Multimodal in q.profile.modalities
       then set s | s in q.explicitModalities && OfName(s).Some? :: OfName(s).value else {})
  }

  function BaseCapabilities(q: Request): set<Capability> {
    q.profile.capabilities + set n, c | n in q.graph.nodes && c in q.graph.nodes[n].capabilities :: c
  }

  const DELEGATED: set<Capability> := {Capability.Retrieval, ToolUse, CodeExecution}

  /** None for the two roles that need an explicit requirement. */
  function RoleCapabilities(q: Request, p: Pattern, role: Role): Option<set<Capability>> {
    var base := BaseCapabilities(q);
    match role
    case Primary => Some(if p.topology == Single then base else base - DELEGATED)
    case RetrievalAugmenter => Some({Capability.Retrieval})
    case ToolModel =>
      var tools := base * {ToolUse, CodeExecution};
      Some(if tools == {} then {ToolUse} else tools)
    case Verifier => Some(base - DELEGATED)
    case Specialist => None
    case Critic => None
  }

  function ModalityValue(m: ModelModality): string {
    match m
    case TextData => "text"
    case ImageData => "image"
    case AudioData => "audio"
    case VideoData => "video"
    case Embedding => "embedding"
    case Structured => "structured_data"
  }

  function RoleValue(r: Role): string {
    match r
    case Primary => "primary"
    case Specialist => "specialist"
    case Verifier => "verifier"
    case Critic => "critic"
    case RetrievalAugmenter => "retrieval_augmenter"
    case ToolModel => "tool_model"
  }

  function RequirementIds(capabilities: set<Capability>, inputs: set<ModelModality>, output: ModelModality): set<string> {
    (set c | c in capabilities :: "capability:" + CapabilityValue(c))
    + (set m | m in inputs :: "input:" + ModalityValue(m))
    + {"output:" + ModalityValue(output)}
  }

  function DerivedReasoning(q: Request, capabilities: set<Capability>): set<ReasoningCapability> {
    if Reasoning !in capabilities then {}
    else if q.profile.complexity == High || q.profile.complexity == Deep then {General, MultiStep}
    else {General}
  }

  function DerivedRequirement(q: Request, p: Pattern, role: Role): Option<RoleRequirement> {
    var modalities := ModelModalities(q);
    var capabilities := RoleCapabilities(q, p, role);
    if modalities == {} || capabilities.None? then None
    else Some(RequirementOf(role, capabilities.value, modalities, DerivedReasoning(q, capabilities.value), q.upstream))
  }

  function RequirementOf(role: Role, c: set<Capability>, modalities: set<ModelModality>,
                         reasoning: set<ReasoningCapability>, u: Upstream): RoleRequirement {
    var structured := StructuredOutput in c;
    var output := if structured then Structured else TextData;
    RoleRequirement(
      RequirementIds(c, modalities, output),
      Requirements(modalities, {output}, reasoning, ToolUse in c || role == ToolModel, Capability.Retrieval in c,
        false, CodeExecution in c, CodeExecution in c, CodeExecution in c, structured, structured, false,
        None, None, None),
      map[InputId(role) := Artifact(modalities, false)],
      map[OutputId(role) := Artifact({TextData}, structured)],
      DerivedProvenance(u))
  }

  function InputId(role: Role): string { RoleValue(role) + "-input" }

  function OutputId(role: Role): string { RoleValue(role) + "-output" }

  function DerivedProvenance(u: Upstream): set<Reference> {
    {Reference(2, u.requestId), Reference(3, u.graphId)}
  }

  /** The explicit requirement of a role, or else the derived one. */
  function RequirementFor(q: Request, p: Pattern, role: Role): Option<RoleRequirement> {
    if role in q.explicit then Some(q.explicit[role]) else DerivedRequirement(q, p, role)
  }

  function RolesOf(p: Pattern): set<Role> { set s | s in p.slots :: s.role }

  predicate Derivable(q: Request, p: Pattern) {
    forall r :: r in RolesOf(p) ==> RequirementFor(q, p, r).Some?
  }

  /** The requirements by role that every later step works from. */
  type Needs = map<Role, RoleRequirement>

  function NeedsOf(q: Request, p: Pattern): Needs
    requires Derivable(q, p)
  {
    map role | role in RolesOf(p) :: RequirementFor(q, p, role).value
  }

  predicate Covers(needs: Needs, p: Pattern) {
    needs.Keys == RolesOf(p) && forall r :: r in needs ==> WellFormedRequirement(needs[r])
  }

  /** Enough to build drafts from. */
  predicate Usable(needs: Needs, p: Pattern) {
    p.slots != [] && needs.Keys == RolesOf(p) && forall r :: r in needs ==> needs[r].outputs != map[]
  }

  const ROLE_VALUES: map<Role, string> := map[
    Primary := "primary", Specialist := "specialist", Verifier := "verifier", Critic := "critic",
    RetrievalAugmenter := "retrieval_augmenter", ToolModel := "tool_model"]

  const MODALITY_MAP: map<Modality, ModelModality> := map[
    Text := TextData, Image := ImageData, Audio := AudioData, Video := VideoData, StructuredData := Structured]

  /** The modalities of the workload, one after the other; a multimodal one stands for those its signals
      name, as far as the registry knows them. */
  method MapModalities(q: Request) returns (values: set<ModelModality>)
    ensures values == ModelModalities(q)
  {
    values := {};
    for i := 0 to |q.profile.modalities|
      invariant values == Mapped(q, i)
    {
      MappedStep(q, i);
      var m := q.profile.modalities[i];
      if m == Multimodal {
        var more := set s | s in q.explicitModalities && OfName(s).Some? :: OfName(s).value;
        values := values + more;
      } else if m == Code {
        values := values + {TextData};
      } else {
        values := values + {MODALITY_MAP[m]};
      }
    }
    MappedAll(q);
  }

  /** What the first n modalities of the profile map to. */
  ghost function Mapped(q: Request, n: nat): set<ModelModality>
    requires n <= |q.profile.modalities|
  {
    (set i | 0 <= i < n && OfWorkload(q.profile.modalities[i]).Some? :: OfWorkload(q.profile.modalities[i]).value)
    + (if Multimodal in q.profile.modalities[..n]
       then set s | s in q.explicitModalities && OfName(s).Some? :: OfName(s).value else {})
  }

  lemma MappedStep(q: Request, n: nat)
    requires n < |q.profile.modalities|
    ensures var m := q.profile.modalities[n];
            Mapped(q, n + 1) == Mapped(q, n)
              + (if m == Multimodal then set s | s in q.explicitModalities && OfName(s).Some? :: OfName(s).value
                 else {OfWorkload(m).value})
  {
    assert q.profile.modalities[..n+1] == q.profile.modalities[..n] + [q.profile.modalities[n]];
  }

  lemma MappedAll(q: Request)
    ensures Mapped(q, |q.profile.modalities|) == ModelModalities(q)
  {
    var ms := q.profile.modalities;
    assert ms[..|ms|] == ms;
    var byIndex := set i | 0 <= i < |ms| && OfWorkload(ms[i]).Some? :: OfWorkload(ms[i]).value;
    var byElement := set m | m in ms && OfWorkload(m).Some? :: OfWorkload(m).value;
    forall x ensures x in byIndex <==> x in byElement {
      if m :| m in ms && OfWorkload(m) == Some(x) {
        var i :| 0 <= i < |ms| && ms[i] == m;
      }
    }
  }

  /** A name is read as the modality whose value it is; code is text. */
  lemma NamesAreValues(s: string, m: ModelModality)
    ensures OfName(s) == Some(m) <==> s == ModalityValue(m) || (s == "code" && m == TextData)
  {}

  /** The contract of a role requirement, check by check. */
  method CheckRequirement(r: RoleRequirement) returns (ok: bool)
    ensures ok <==> WellFormedRequirement(r)
  {
    if |r.ids| == 0 || exists id :: id in r.ids && !Nonblank(id) {
      return false;
    }
    if |r.inputs| == 0 || exists id :: id in r.inputs && r.inputs[id].modalities == {} {
      return false;
    }
    if |r.outputs| == 0 || exists id :: id in r.outputs && r.outputs[id].modalities == {} {
      return false;
    }
    return |r.provenance| > 0 && !exists p :: p in r.provenance && !Nonblank(p.artifact);
  }

  method CheckNeeds(needs: Needs) returns (ok: bool)
    ensures ok <==> forall r :: r in needs ==> WellFormedRequirement(needs[r])
  {
    var todo := needs.Keys;
    while todo != {}
      invariant todo <= needs.Keys && forall r :: r in needs.Keys - todo ==> WellFormedRequirement(needs[r])
      decreases todo
    {
      var role :| role in todo;
      todo := todo - {role};
      var sound := CheckRequirement(needs[role]);
      if !sound {
        return false;
      }
    }
    return true;
  }

  /** The capabilities a role must bring: those of the profile and of all graph nodes, narrowed to the
      role; None for the roles that need an explicit requirement. */
  method NarrowCapabilities(q: Request, p: Pattern, role: Role) returns (capabilities: Option<set<Capability>>)
    ensures capabilities == RoleCapabilities(q, p, role)
  {
    if role == Specialist || role == Critic {
      return None;
    }
    if role == RetrievalAugmenter {
      return Some({Capability.Retrieval});
    }
    var all := q.profile.capabilities + set n, c | n in q.graph.nodes && c in q.graph.nodes[n].capabilities :: c;
    var others := set c | c in all && c != Capability.Retrieval && c != ToolUse && c != CodeExecution;
    if role == ToolModel {
      var tools := set c | c in all && (c == ToolUse || c == CodeExecution);
      assert tools == all * {ToolUse, CodeExecution};
      return Some(if |tools| == 0 then {ToolUse} else tools);
    }
    assert others == all - DELEGATED;
    return Some(if role == Primary && p.topology == Single then all else others);
  }

  /** The requirement of a role: explicit, or derived field by field. */
  method DeriveRequirement(q: Request, p: Pattern, role: Role) returns (r: Option<RoleRequirement>)
    ensures r == RequirementFor(q, p, role)
  {
    if role in q.explicit {
      return Some(q.explicit[role]);
    }
    var narrowed := NarrowCapabilities(q, p, role);
    var modalities := MapModalities(q);
    if narrowed.None? || modalities == {} {
      return None;
    }
    var reasoning := DeriveReasoning(q, narrowed.value);
    var requirement := BuildRequirement(role, narrowed.value, modalities, reasoning, q.upstream);
    return Some(requirement);
  }

  method DeriveReasoning(q: Request, capabilities: set<Capability>) returns (reasoning: set<ReasoningCapability>)
    ensures reasoning == DerivedReasoning(q, capabilities)
  {
    reasoning := {};
    if Reasoning in capabilities {
      reasoning := reasoning + {General};
      if q.profile.complexity in {High, Deep} {
        reasoning := reasoning + {MultiStep};
      }
    }
  }

  method BuildRequirement(role: Role, capabilities: set<Capability>, modalities: set<ModelModality>,
                          reasoning: set<ReasoningCapability>, u: Upstream) returns (r: RoleRequirement)
    ensures r == RequirementOf(role, capabilities, modalities, reasoning, u)
  {
    var structured, codeTool := StructuredOutput in capabilities, CodeExecution in capabilities;
    var output := if structured then Structured else TextData;
    var requirements := Requirements(
      modalities, {output}, reasoning, ToolUse in capabilities || role == ToolModel, Capability.Retrieval in capabilities,
      false, codeTool, codeTool, codeTool, structured, structured, false, None, None, None);
    var ids := (set c | c in capabilities :: "capability:" + CapabilityValue(c))
               + (set m | m in modalities :: "input:" + ModalityValue(m)) + {"output:" + ModalityValue(output)};
    var prefix := ROLE_VALUES[role];
    return RoleRequirement(
      ids, requirements,
      map[prefix + "-input" := Artifact(modalities, false)],
      map[prefix + "-output" := Artifact({TextData}, structured)],
      {Reference(2, u.requestId), Reference(3, u.graphId)});
  }

  /** One requirement for each role of the pattern; None when a role has none. */
  method DeriveRoleRequirements(q: Request, p: Pattern) returns (r: Option<Needs>)
    ensures r.Some? <==> Derivable(q, p)
    ensures r.Some? ==> r.value == NeedsOf(q, p)
  {
    var slots := p.slots;
    var requirements: map<Role, RoleRequirement> := map[];
    for i := 0 to |slots|
      invariant requirements.Keys == set s | s in slots[..i] :: s.role
      invariant forall x :: x in requirements ==> RequirementFor(q, p, x) == Some(requirements[x])
    {
      assert slots[..i+1] == slots[..i] + [slots[i]];
      var role := slots[i].role;
      if role !in requirements {
        var requirement := DeriveRequirement(q, p, role);
        if requirement.None? {
          assert role in RolesOf(p);
          return None;
        }
        requirements := requirements[role := requirement.value];
      }
    }
    assert slots[..|slots|] == slots;
    return Some(requirements);
  }

  lemma RequirementIdsNonblank(capabilities: set<Capability>, inputs: set<ModelModality>, output: ModelModality)
    ensures RequirementIds(capabilities, inputs, output) != {}
    ensures forall id :: id in RequirementIds(capabilities, inputs, output) ==> Nonblank(id)
  {
    assert "output:" + ModalityValue(output) in RequirementIds(capabilities, inputs, output);
    forall id | id in RequirementIds(capabilities, inputs, output) ensures Nonblank(id) {
      assert "capability:"[0] == 'c' && "input:"[0] == 'i' && "output:"[0] == 'o';
      NonblankHead(id);
    }
  }

  lemma OneArtifact(id: string, a: Artifact)
    requires a.modalities != {}
    ensures WellFormedArtifacts(map[id := a])
  {
    assert id in map[id := a];
  }

  lemma DerivedIsWellFormed(role: Role, c: set<Capability>, modalities: set<ModelModality>,
                            reasoning: set<ReasoningCapability>, u: Upstream)
    requires modalities != {} && NonblankUpstream(u)
    ensures WellFormedRequirement(RequirementOf(role, c, modalities, reasoning, u))
  {
    RequirementIdsNonblank(c, modalities, if StructuredOutput in c then Structured else TextData);
    ProvenanceIsSound(u);
    OneArtifact(InputId(role), Artifact(modalities, false));
    assert TextData in {TextData};
    OneArtifact(OutputId(role), Artifact({TextData}, StructuredOutput in c));
  }

  lemma ProvenanceIsSound(u: Upstream)
    requires NonblankUpstream(u)
    ensures DerivedProvenance(u) != {} && forall p :: p in DerivedProvenance(u) ==> Sound(p)
  {
    assert Reference(3, u.graphId) in DerivedProvenance(u);
  }

  lemma NeedsCover(q: Request, p: Pattern)
    requires WellFormedRequest(q) && Derivable(q, p)
    ensures Covers(NeedsOf(q, p), p)
  {
    forall role | role in RolesOf(p) ensures WellFormedRequirement(NeedsOf(q, p)[role]) {
      if role !in q.explicit {
        var c := RoleCapabilities(q, p, role).value;
        DerivedIsWellFormed(role, c, ModelModalities(q), DerivedReasoning(q, c), q.upstream);
      }
    }
  }

  // ----- applicable patterns and blocked roles

  predicate HasNode(q: Request, t: NodeType) { OfType(q.graph, t) != {} }

  predicate Applies(q: Request, p: Pattern) {
    match p.topology
    case Single => !q.required
    case PrimaryVerifier => HasNode(q, Validation)
    case PrimaryCritic => Critic in q.explicit
    case PrimarySpecialistPrimary => Specialist in q.explicit
    case PrimaryRetrievalPrimary => HasNode(q, Retrieve)
    case PrimaryToolPrimary => HasNode(q, Tool)
    case PrimarySpecialistVerifier => Specialist in q.explicit && HasNode(q, Validation)
  }

  /** The test of a pattern, topology by topology. */
  method PatternApplies(q: Request, p: Pattern) returns (applies: bool)
    ensures applies <==> Applies(q, p)
  {
    var nodeTypes := set n | n in q.graph.nodes :: q.graph.nodes[n].nodeType;
    TypesOfNodes(q, nodeTypes);
    var explicitRoles := q.explicit.Keys;
    applies := false;
    if p.topology == Single {
      applies := !q.required;
    } else if p.topology == PrimaryVerifier {
      applies := Validation in nodeTypes;
    } else if p.topology == PrimaryCritic {
      applies := Critic in explicitRoles;
    } else if p.topology == PrimarySpecialistPrimary {
      applies := Specialist in explicitRoles;
    } else if p.topology == PrimaryRetrievalPrimary {
      applies := Retrieve in nodeTypes;
    } else if p.topology == PrimaryToolPrimary {
      applies := Tool in nodeTypes;
    } else if p.topology == PrimarySpecialistVerifier {
      applies := Specialist in explicitRoles && Validation in nodeTypes;
    }
  }

  lemma TypesOfNodes(q: Request, types: set<NodeType>)
    requires types == set n | n in q.graph.nodes :: q.graph.nodes[n].nodeType
    ensures forall t :: t in types <==> HasNode(q, t)
  {
    forall t ensures t in types <==> HasNode(q, t) {
      if HasNode(q, t) {
        var n :| n in OfType(q.graph, t);
      }
      if n :| n in q.graph.nodes && q.graph.nodes[n].nodeType == t {
        assert n in OfType(q.graph, t);
      }
    }
  }

  predicate HasClaim(constraints: seq<Constraint>, claim: string) {
    exists c :: c in constraints && c.assessed.requirements.claim == claim
  }

  /** The assessment that a dictionary keyed by claim keeps: the last one. */
  function LastStatus(constraints: seq<Constraint>, claim: string): (s: AssessmentStatus)
    requires HasClaim(constraints, claim)
    ensures exists c :: c in constraints && c.assessed.requirements.claim == claim && c.assessed.status == s
  {
    var last := constraints[|constraints|-1];
    if last.assessed.requirements.claim == claim then last.assessed.status
    else
      assert HasClaim(constraints[..|constraints|-1], claim) by {
        var c :| c in constraints && c.assessed.requirements.claim == claim;
        assert c in constraints[..|constraints|-1];
      }
      LastStatus(constraints[..|constraints|-1], claim)
  }

  predicate Blocks(constraints: seq<Constraint>, c: Constraint)
    requires c in constraints
  {
    && c.assessed.requirements.requiresEvidence
    && LastStatus(constraints, c.assessed.requirements.claim) != Acceptable
  }

  function BlockedRoles(q: Request): set<Role> {
    set c | c in q.constraints && Blocks(q.constraints, c) :: c.role
  }

  method FindBlockedRoles(q: Request) returns (blocked: set<Role>)
    ensures blocked == BlockedRoles(q)
  {
    var byClaim: map<string, AssessmentStatus> := map[];
    for i := 0 to |q.constraints|
      invariant forall claim :: claim in byClaim <==> HasClaim(q.constraints[..i], claim)
      invariant forall claim :: claim in byClaim ==> byClaim[claim] == LastStatus(q.constraints[..i], claim)
    {
      var c := q.constraints[i];
      assert q.constraints[..i+1] == q.constraints[..i] + [c];
      assert q.constraints[..i+1][..i] == q.constraints[..i];
      byClaim := byClaim[c.assessed.requirements.claim := c.assessed.status];
    }
    assert q.constraints[..|q.constraints|] == q.constraints;
    return set c | c in q.constraints && c.assessed.requirements.requiresEvidence
                   && byClaim[c.assessed.requirements.claim] != Acceptable :: c.role;
  }

  /** The records a role may be bound to. */
  function CandidatesFor(q: Request, compatible: Compatibility, needs: Needs, role: Role): seq<Record>
    requires role in needs
  {
    if role in BlockedRoles(q) then [] else Compatible(q.registry, needs[role].requirements, compatible)
  }

  function CandidatesByRole(q: Request, compatible: Compatibility, needs: Needs): Candidates {
    map role | role in needs :: CandidatesFor(q, compatible, needs, role)
  }
}
