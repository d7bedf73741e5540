/** When an instantiated draft passes: its handoffs fit and its evidence is acceptable, whatever models
    it binds. */
module CompositionVerdicts {
  import opened IntelligenceModels
  import opened Digraph
  import opened ExecutionGraphs
  import opened CompositionPatterns
  import opened CompositionBindings
  import opened CompositionInstantiation
  import opened CompositionDrafts
  import opened CompositionEnumeration
  import opened CompositionValidation
  import opened CompositionAgreement
  import opened ModelRegistry

  // ----- handoffs

  /** A stage of the given role can hand its first output to the next stage: a modality in common,
      structure kept, and an artifact that bears the role's word. */
  ghost predicate CanHand(role: Role, src: RoleRequirement, dst: RoleRequirement)
    requires src.outputs != map[]
  {
    var a := src.outputs[FirstOutput(src)];
    && a.modalities * Accepted(dst.inputs) != {}
    && (a.structured ==> KeepsStructure(dst.inputs))
    && (Marker(role).Some? ==> Contains(FirstOutput(src), Marker(role).value))
  }

  ghost predicate HandoffsFit(p: Pattern, needs: Needs)
    requires Usable(needs, p)
  {
    forall k :: 0 <= k < |p.slots| - 1 ==> StepFits(p, needs, k)
  }

  ghost predicate StepFits(p: Pattern, needs: Needs, k: nat)
    requires Usable(needs, p) && k + 1 < |p.slots|
  {
    CanHand(RoleAt(p, k), needs[RoleAt(p, k)], needs[RoleAt(p, k + 1)])
  }

  ghost predicate StepFault(q: Request, p: Pattern, needs: Needs, b: Binding, k: nat, i: Issue)
    requires Usable(needs, p) && |b| == |p.slots| && k + 1 < |p.slots|
  {
    HandoffFault(StageAt(q, p, needs, b, k), StageAt(q, p, needs, b, k + 1), HandoffAt(q, p, needs, k), i)
  }

  lemma StepFaultRaises(q: Request, p: Pattern, needs: Needs, b: Binding, k: nat, i: Issue)
    requires Shaped(p) && Usable(needs, p) && |b| == |p.slots| && k + 1 < |p.slots| && StepFault(q, p, needs, b, k, i)
    ensures HandoffRaises(DraftOf(q, p, needs, b), i)
  {
    HandoffIsJoined(q, p, needs, b, k);
  }

  lemma RaisedByStep(q: Request, p: Pattern, needs: Needs, b: Binding, i: Issue) returns (k: nat)
    requires Shaped(p) && Usable(needs, p) && |b| == |p.slots| && HandoffRaises(DraftOf(q, p, needs, b), i)
    ensures k + 1 < |p.slots| && StepFault(q, p, needs, b, k, i)
  {
    var d := DraftOf(q, p, needs, b);
    var e :| Joins(d, e) && HandoffFault(d.stages[e.src], d.stages[e.dst], e, i);
    k := ListedHandoff(q, p, needs, e);
    HandoffIsJoined(q, p, needs, b, k);
  }

  lemma HandoffIsJoined(q: Request, p: Pattern, needs: Needs, b: Binding, k: nat)
    requires Shaped(p) && Usable(needs, p) && |b| == |p.slots| && k + 1 < |p.slots|
    ensures var d, e := DraftOf(q, p, needs, b), HandoffAt(q, p, needs, k);
            && Joins(d, e) && d.stages[e.src] == StageAt(q, p, needs, b, k)
            && d.stages[e.dst] == StageAt(q, p, needs, b, k + 1)
  {
    var e := HandoffAt(q, p, needs, k);
    StageOfSlot(q, p, needs, b, k);
    StageOfSlot(q, p, needs, b, k + 1);
    HandoffIsListed(q, p, needs, k);
    assert e.src == p.slots[k].stage && e.dst == p.slots[k + 1].stage;
  }

  lemma HandoffIsListed(q: Request, p: Pattern, needs: Needs, k: nat)
    requires Usable(needs, p) && k + 1 < |p.slots|
    ensures HandoffAt(q, p, needs, k) in HandoffsOf(q, p, needs)
  {
    assert HandoffList(q, p, needs)[k] == HandoffAt(q, p, needs, k);
  }

  lemma ListedHandoff(q: Request, p: Pattern, needs: Needs, e: HandoffEdge) returns (k: nat)
    requires Usable(needs, p) && e in HandoffsOf(q, p, needs)
    ensures k + 1 < |p.slots| && e == HandoffAt(q, p, needs, k)
  {
    k :| 0 <= k < |HandoffList(q, p, needs)| && HandoffList(q, p, needs)[k] == e;
  }

  lemma StepFitsExactly(q: Request, p: Pattern, needs: Needs, b: Binding, k: nat)
    requires Usable(needs, p) && |b| == |p.slots| && k + 1 < |p.slots|
    ensures StepFits(p, needs, k) <==> forall i :: !StepFault(q, p, needs, b, k, i)
  {
    var src, dst, e := StageAt(q, p, needs, b, k), StageAt(q, p, needs, b, k + 1), HandoffAt(q, p, needs, k);
    FaultFreeExactly(src, dst, e);
    forall i ensures StepFault(q, p, needs, b, k, i) <==> HandoffFault(src, dst, e, i) {}
  }

  /** A handoff of a declared artifact is free of faults exactly when these three hold. */
  lemma FaultFreeExactly(src: Stage, dst: Stage, e: HandoffEdge)
    requires e.tag.artifact in src.outputs
    ensures (forall i :: !HandoffFault(src, dst, e, i)) <==>
              && src.outputs[e.tag.artifact].modalities * Accepted(dst.inputs) != {}
              && (src.outputs[e.tag.artifact].structured ==> KeepsStructure(dst.inputs))
              && (Marker(src.role).Some? ==> Contains(e.tag.artifact, Marker(src.role).value))
  {
    if forall i :: !HandoffFault(src, dst, e, i) {
      assert !HandoffFault(src, dst, e, ModalityMismatch(e));
      assert !HandoffFault(src, dst, e, StructureLost(e));
      assert !HandoffFault(src, dst, e, GenericHandoff(e));
    }
  }

  lemma HandoffsFitExactly(q: Request, p: Pattern, needs: Needs, b: Binding)
    requires Shaped(p) && Usable(needs, p) && |b| == |p.slots|
    ensures HandoffsFit(p, needs) <==> forall i :: !HandoffRaises(DraftOf(q, p, needs, b), i)
  {
    if HandoffsFit(p, needs) {
      forall i ensures !HandoffRaises(DraftOf(q, p, needs, b), i) {
        if HandoffRaises(DraftOf(q, p, needs, b), i) {
          var k := RaisedByStep(q, p, needs, b, i);
          StepFitsExactly(q, p, needs, b, k);
        }
      }
    } else {
      var k :| 0 <= k < |p.slots| - 1 && !StepFits(p, needs, k);
      StepFitsExactly(q, p, needs, b, k);
      var i :| StepFault(q, p, needs, b, k, i);
      StepFaultRaises(q, p, needs, b, k, i);
    }
  }

  // ----- evidence

  predicate Unacceptable(a: Assessment) { ExplicitlyRequired(a.requirements) && a.status != Acceptable }

  predicate EvidenceFits(q: Request, p: Pattern) {
    forall c :: c in q.constraints && c.role in RolesOf(p) ==> !Unacceptable(c.assessed)
  }

  lemma EvidenceFitsExactly(q: Request, p: Pattern, needs: Needs, b: Binding)
    requires Usable(needs, p) && |b| == |p.slots|
    ensures EvidenceFits(q, p) <==> forall i :: !EvidenceRaises(DraftOf(q, p, needs, b), i)
  {
    var d := DraftOf(q, p, needs, b);
    if forall i :: !EvidenceRaises(d, i) {
      forall c | c in q.constraints && c.role in RolesOf(p) ensures !Unacceptable(c.assessed) {
        assert !EvidenceRaises(d, RequiredEvidence(c.assessed));
      }
    }
  }

  /** The verdict on an instantiated draft, exactly. It does not mention the binding: the drafts of one
      pattern pass together or fail together. */
  lemma DraftPassesExactly(q: Request, compatible: Compatibility, p: Pattern, needs: Needs, b: Binding)
    requires WellFormedRequest(q) && Shaped(p) && Covers(needs, p) && Usable(needs, p)
    requires Admissible(q, compatible, p, needs, b)
    ensures var d := DraftOf(q, p, needs, b);
            Passes(d, ContextFor(q, d), compatible, p) <==> HandoffsFit(p, needs) && EvidenceFits(q, p)
  {
    var d := DraftOf(q, p, needs, b);
    HandoffsFitExactly(q, p, needs, b);
    EvidenceFitsExactly(q, p, needs, b);
    forall i ensures Raises(d, ContextFor(q, d), compatible, p, i) <==> EvidenceRaises(d, i) || HandoffRaises(d, i) {
      OnlyHandoffsAndEvidence(q, compatible, p, needs, b, i);
    }
  }

  // ----- blocking and validating evidence

  /** A constraint that requires evidence, and whose outcome is not the one that blocking looks at: the
      outcome of the last constraint on its claim. */
  predicate Overlooked(constraints: seq<Constraint>, c: Constraint)
    requires c in constraints
  {
    && c.assessed.requirements.requiresEvidence
    && c.assessed.status != LastStatus(constraints, c.assessed.requirements.claim)
  }

  /** Of a role that was bound, a required evidence is unacceptable exactly when it was overlooked. */
  lemma EscapesExactly(q: Request, compatible: Compatibility, p: Pattern, needs: Needs, b: Binding, c: Constraint)
    requires Usable(needs, p) && Admissible(q, compatible, p, needs, b)
    requires c in q.constraints && c.role in RolesOf(p) && c.assessed.requirements.requiresEvidence
    ensures LastStatus(q.constraints, c.assessed.requirements.claim) == Acceptable
    ensures Unacceptable(c.assessed) <==> Overlooked(q.constraints, c)
  {
    var i :| 0 <= i < |p.slots| && p.slots[i].role == c.role;
    assert MayBind(q, compatible, needs, RoleAt(p, i), b[i]);
    assert !Blocks(q.constraints, c);
  }

  /** Some required evidence of an instantiated draft is unacceptable if and only if one of its roles has
      an overlooked constraint. */
  lemma RequiredEvidenceEscapesExactly(q: Request, compatible: Compatibility, p: Pattern, needs: Needs, b: Binding)
    requires Usable(needs, p) && Admissible(q, compatible, p, needs, b)
    ensures (exists c :: c in q.constraints && c.role in RolesOf(p) && c.assessed.requirements.requiresEvidence
                         && Unacceptable(c.assessed))
            <==> exists c :: c in q.constraints && c.role in RolesOf(p) && Overlooked(q.constraints, c)
  {
    forall c | c in q.constraints && c.role in RolesOf(p) && c.assessed.requirements.requiresEvidence
      ensures Unacceptable(c.assessed) <==> Overlooked(q.constraints, c)
    {
      EscapesExactly(q, compatible, p, needs, b, c);
    }
  }

  /** So an instantiated draft has acceptable evidence exactly when none of its roles has an overlooked
      constraint, nor one that requires no evidence, sets another trust flag and is unacceptable. */
  lemma EvidenceAfterBlocking(q: Request, compatible: Compatibility, p: Pattern, needs: Needs, b: Binding)
    requires Usable(needs, p) && Admissible(q, compatible, p, needs, b)
    ensures EvidenceFits(q, p) <==>
              forall c :: c in q.constraints && c.role in RolesOf(p) ==>
                !Overlooked(q.constraints, c)
                && (!c.assessed.requirements.requiresEvidence ==> !Unacceptable(c.assessed))
  {
    forall c | c in q.constraints && c.role in RolesOf(p) && c.assessed.requirements.requiresEvidence
      ensures Unacceptable(c.assessed) <==> Overlooked(q.constraints, c)
    {
      EscapesExactly(q, compatible, p, needs, b, c);
    }
  }

  predicate SameOutcome(a: Assessment, b: Assessment) {
    a.requirements.claim == b.requirements.claim ==> a.status == b.status
  }

  /** Constraints on one claim have one outcome. */
  predicate ClaimsAgree(constraints: seq<Constraint>) {
    forall c, e :: c in constraints && e in constraints ==> SameOutcome(c.assessed, e.assessed)
  }

  lemma AgreedStatus(constraints: seq<Constraint>, c: Constraint)
    requires ClaimsAgree(constraints) && c in constraints
    ensures !Overlooked(constraints, c)
  {}

  /** In particular, when claims agree, blocking has dealt with every constraint that requires evidence. */
  lemma BlockedEvidenceIsNeverSeen(q: Request, compatible: Compatibility, p: Pattern, needs: Needs, b: Binding)
    requires Usable(needs, p) && Admissible(q, compatible, p, needs, b) && ClaimsAgree(q.constraints)
    ensures EvidenceFits(q, p) <==>
              forall c :: c in q.constraints && c.role in RolesOf(p) && !c.assessed.requirements.requiresEvidence
                ==> !Unacceptable(c.assessed)
  {
    EvidenceAfterBlocking(q, compatible, p, needs, b);
    forall c | c in q.constraints ensures !Overlooked(q.constraints, c) { AgreedStatus(q.constraints, c); }
  }

  // ----- derived requirements only

  /** The handoffs of derived stages fit exactly when the workload has text and, if its output must be
      structured, structured data as well. */
  ghost predicate CarriesText(q: Request) {
    && TextData in ModelModalities(q)
    && (StructuredOutput in BaseCapabilities(q) ==> Structured in ModelModalities(q))
  }

  lemma OneKey(id: string, a: Artifact, r: RoleRequirement)
    requires r.outputs == map[id := a]
    ensures r.outputs != map[] && FirstOutput(r) == id
  {
    assert id in r.outputs && r.outputs.Keys == {id};
  }

  lemma OneInput(r: RoleRequirement, id: string, modalities: set<ModelModality>)
    requires r.inputs == map[id := Artifact(modalities, false)]
    ensures Accepted(r.inputs) == modalities
    ensures KeepsStructure(r.inputs) <==> Structured in modalities
  {
    assert id in r.inputs;
  }

  lemma MarkerIsCarried(role: Role)
    requires Marker(role).Some?
    ensures Contains(OutputId(role), Marker(role).value)
  {
    assert StartsAt(OutputId(role), Marker(role).value, 0);
  }

  /** One handoff between two derived stages. */
  lemma DerivedHandoff(role: Role, to: Role, c: set<Capability>, c': set<Capability>, m: set<ModelModality>,
                       r: set<ReasoningCapability>, r': set<ReasoningCapability>, u: Upstream)
    ensures RequirementOf(role, c, m, r, u).outputs != map[]
    ensures CanHand(role, RequirementOf(role, c, m, r, u), RequirementOf(to, c', m, r', u))
            <==> TextData in m && (StructuredOutput in c ==> Structured in m)
  {
    var src, dst := RequirementOf(role, c, m, r, u), RequirementOf(to, c', m, r', u);
    OneKey(OutputId(role), Artifact({TextData}, StructuredOutput in c), src);
    OneInput(dst, InputId(to), m);
    if Marker(role).Some? { MarkerIsCarried(role); }
    if TextData in m { assert TextData in {TextData} * m; } else { assert {TextData} * m == {}; }
  }

  lemma OutputStructure(q: Request, p: Pattern, role: Role)
    requires RoleCapabilities(q, p, role).Some?
    ensures StructuredOutput in RoleCapabilities(q, p, role).value ==> StructuredOutput in BaseCapabilities(q)
    ensures role == Primary ==>
              (StructuredOutput in RoleCapabilities(q, p, role).value <==> StructuredOutput in BaseCapabilities(q))
  {}

  lemma DerivedStep(q: Request, p: Pattern, k: nat)
    requires Derivable(q, p) && RolesOf(p) !! q.explicit.Keys && k + 1 < |p.slots|
    requires Usable(NeedsOf(q, p), p)
    ensures StepFits(p, NeedsOf(q, p), k) <==>
              TextData in ModelModalities(q)
              && (StructuredOutput in RoleCapabilities(q, p, RoleAt(p, k)).value ==> Structured in ModelModalities(q))
  {
    var a, b := RoleAt(p, k), RoleAt(p, k + 1);
    var c, c' := RoleCapabilities(q, p, a).value, RoleCapabilities(q, p, b).value;
    DerivedHandoff(a, b, c, c', ModelModalities(q), DerivedReasoning(q, c), DerivedReasoning(q, c'), q.upstream);
  }

  /** A request whose pattern has derived requirements only. */
  lemma DerivedHandoffsFitExactly(q: Request, p: Pattern)
    requires Derivable(q, p) && RolesOf(p) !! q.explicit.Keys && Usable(NeedsOf(q, p), p)
    requires p.slots[0].role == Primary
    ensures HandoffsFit(p, NeedsOf(q, p)) <==> |p.slots| == 1 || CarriesText(q)
  {
    forall k | 0 <= k < |p.slots| - 1 ensures CarriesText(q) ==> StepFits(p, NeedsOf(q, p), k) {
      DerivedStep(q, p, k);
      OutputStructure(q, p, RoleAt(p, k));
    }
    if |p.slots| > 1 {
      assert RoleAt(p, 0) == Primary;
      DerivedStep(q, p, 0);
      OutputStructure(q, p, Primary);
    }
  }
}
