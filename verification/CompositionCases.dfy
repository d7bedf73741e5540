/** Requests at which the results on composition bite: a required evidence that escapes blocking, and a
    workload without text whose drafts of several stages are all rejected. */
module CompositionCases {
  import opened IntelligenceModels
  import opened ExecutionGraphs
  import opened CompositionPatterns
  import opened CompositionBindings
  import opened CompositionInstantiation
  import opened CompositionDrafts
  import opened CompositionEnumeration
  import opened CompositionValidation
  import opened CompositionAgreement
  import opened CompositionVerdicts
  import opened CompositionGeneration
  import opened CompositionTopologies
  import opened ModelRegistry
  import opened Texts
  import GraphBuilder

  function OnlyRecord(): Record { Record(Identity("p", "m", "f", "r"), "") }

  function AllCompatible(): Compatibility { (r, q) => true }

  function RequestWith(profile: Profile, graph: ExecutionGraph, explicit: map<Role, RoleRequirement>,
                       constraints: seq<Constraint>, required: bool): Request {
    Request(Upstream("r", "w", "s", "g"), profile, {}, graph, [OnlyRecord()], "f", explicit, constraints, required)
  }

  lemma RequestIsWellFormed(q: Request)
    requires q.upstream == Upstream("r", "w", "s", "g") && q.registry == [OnlyRecord()] && q.fingerprint == "f"
    requires forall r :: r in q.explicit ==> WellFormedRequirement(q.explicit[r])
    ensures WellFormedRequest(q)
  {
    NonblankHead("r");
    NonblankHead("w");
    NonblankHead("s");
    NonblankHead("g");
    NonblankHead("f");
  }

  /** The one record in every slot. */
  function Everywhere(p: Pattern): Binding { seq(|p.slots|, _ => OnlyRecord()) }

  lemma EverywhereIsAdmissible(q: Request, p: Pattern, needs: Needs)
    requires q.registry == [OnlyRecord()] && needs.Keys == RolesOf(p) && BlockedRoles(q) !! RolesOf(p)
    ensures Admissible(q, AllCompatible(), p, needs, Everywhere(p))
  {
    var b := Everywhere(p);
    forall i | 0 <= i < |b| ensures MayBind(q, AllCompatible(), needs, RoleAt(p, i), b[i]) {
      assert RoleAt(p, i) in RolesOf(p);
    }
  }

  lemma EverywhereIsDrafted(q: Request, p: Pattern) returns (d: Draft)
    requires WellFormedRequest(q) && q.registry == [OnlyRecord()] && BlockedRoles(q) !! RolesOf(p)
    requires Shaped(p) && Applies(q, p) && Derivable(q, p)
    ensures Usable(NeedsOf(q, p), p) && d == DraftOf(q, p, NeedsOf(q, p), Everywhere(p))
    ensures IsDraftOf(q, AllCompatible(), p, Everywhere(p), d)
  {
    NeedsCover(q, p);
    EverywhereIsAdmissible(q, p, NeedsOf(q, p));
    d := DraftOf(q, p, NeedsOf(q, p), Everywhere(p));
  }

  // ----- a required evidence that escapes blocking

  function Demand(): EvidenceRequirements { EvidenceRequirements("c", true, false, false, false, false) }

  function Missing(): Assessment { Assessment(Demand(), Insufficient) }

  function Present(): Assessment { Assessment(Demand(), Acceptable) }

  /** Two roles share a claim. The constraints are in the order of their roles' names. */
  function SharedClaim(): seq<Constraint> { [Constraint(Critic, Missing()), Constraint(Primary, Present())] }

  function TextRequirement(): RoleRequirement {
    RoleRequirement({"i"}, Requirements({}, {}, {}, false, false, false, false, false, false, false, false, false, None, None, None),
                    map["a" := Artifact({TextData}, false)], map["b" := Artifact({TextData}, false)], {Reference(2, "r")})
  }

  lemma TextRequirementIsWellFormed()
    ensures WellFormedRequirement(TextRequirement())
  {
    NonblankHead("i");
    NonblankHead("r");
    var r := TextRequirement();
    assert "i" in r.ids && "a" in r.inputs && "b" in r.outputs && Reference(2, "r") in r.provenance;
    assert TextData in {TextData};
  }

  function CriticRequest(profile: Profile, graph: ExecutionGraph): Request {
    RequestWith(profile, graph, map[Primary := TextRequirement(), Critic := TextRequirement()], SharedClaim(), true)
  }

  lemma SharedClaimBlocksNothing(q: Request)
    requires q.constraints == SharedClaim()
    ensures BlockedRoles(q) == {}
    ensures Overlooked(q.constraints, SharedClaim()[0])
  {
    assert LastStatus(SharedClaim(), "c") == Acceptable;
    forall c | c in q.constraints ensures !Blocks(q.constraints, c) {
      assert c == SharedClaim()[0] || c == SharedClaim()[1];
    }
  }

  lemma CriticIsDerivable(q: Request, p: Pattern)
    requires p.slots == SlotsOf(PrimaryCritic) && Primary in q.explicit && Critic in q.explicit
    ensures RolesOf(p) == {Primary, Critic} && Derivable(q, p)
  {
    assert p.slots[0] == Plain(Primary) && p.slots[1] == Plain(Critic);
    assert p.slots[0] in p.slots && p.slots[1] in p.slots;
  }

  /** Whatever the profile and graph: the request has a draft of the primary-critic pattern, although a
      constraint on the critic requires evidence that is insufficient; the validator rejects it for just
      that, and passes no draft of the pattern. */
  lemma SharedClaimEscapesBlocking(profile: Profile, graph: ExecutionGraph) returns (d: Draft)
    ensures var q, p := CriticRequest(profile, graph), PatternOf(PrimaryCritic);
            && WellFormedRequest(q) && IsDraftOf(q, AllCompatible(), p, Everywhere(p), d)
            && Missing().requirements.requiresEvidence && Missing().status != Acceptable
            && Raises(d, ContextFor(q, d), AllCompatible(), p, RequiredEvidence(Missing()))
            && forall b, e :: IsDraftOf(q, AllCompatible(), p, b, e) ==> !Passes(e, ContextFor(q, e), AllCompatible(), p)
  {
    var q, p := CriticRequest(profile, graph), PatternOf(PrimaryCritic);
    TextRequirementIsWellFormed();
    RequestIsWellFormed(q);
    CertifiedIsShaped(PrimaryCritic);
    CriticIsDerivable(q, p);
    SharedClaimBlocksNothing(q);
    d := EverywhereIsDrafted(q, p);
    assert SharedClaim()[0] in q.constraints;
    assert Missing() in RelevantAssessments(q, p);
    assert EvidenceRaises(d, RequiredEvidence(Missing()));
    forall b, e | IsDraftOf(q, AllCompatible(), p, b, e) ensures !Passes(e, ContextFor(q, e), AllCompatible(), p) {
      NeedsCover(q, p);
      DraftPassesExactly(q, AllCompatible(), p, NeedsOf(q, p), b);
      assert Unacceptable(SharedClaim()[0].assessed);
    }
  }

  // ----- a workload without text

  function ImageProfile(): Profile {
    Profile(WorkloadIdentity("r", "w", "s"), [Image], Minimal, Short, false, Batch, Standard, Restricted,
            {Vision, Capability.Retrieval}, {}, 20)
  }

  lemma ImageProfileIsBuildable()
    ensures GraphBuilder.Buildable(ImageProfile())
  {
    NonblankHead("r");
    NonblankHead("w");
    NonblankHead("s");
    assert Vision in ImageProfile().capabilities;
  }

  /** A workload with the graph compiled from its profile; composition is required. */
  function CompiledRequest(profile: Profile): Request
    requires GraphBuilder.Buildable(profile)
  {
    RequestWith(profile, GraphBuilder.Chain(GraphBuilder.StagesUpTo(profile, 9), profile), map[], [], true)
  }

  lemma RetrievalApplies(profile: Profile)
    requires GraphBuilder.Buildable(profile) && Capability.Retrieval in profile.capabilities
    ensures Applies(CompiledRequest(profile), PatternOf(PrimaryRetrievalPrimary))
  {
    CapabilitiesCallForTopologies(CompiledRequest(profile));
    CalledForExactly(CompiledRequest(profile), PrimaryRetrievalPrimary);
  }

  lemma RetrievalIsDerivable(q: Request, p: Pattern)
    requires p.slots == SlotsOf(PrimaryRetrievalPrimary) && q.explicit == map[] && ModelModalities(q) != {}
    ensures Derivable(q, p) && |p.slots| == 3
  {
    forall r | r in RolesOf(p) ensures r == Primary || r == RetrievalAugmenter {
      var i :| 0 <= i < |p.slots| && p.slots[i].role == r;
    }
  }

  lemma ImageModalities(q: Request)
    requires q.profile.modalities == [Image]
    ensures ModelModalities(q) == {ImageData}
  {
    assert Image in q.profile.modalities;
  }

  lemma EverywhereIsEnumerated(q: Request, p: Pattern) returns (d: Draft)
    requires WellFormedRequest(q) && q.registry == [OnlyRecord()] && BlockedRoles(q) !! RolesOf(p)
    requires p in CertifiedPatterns() && Shaped(p) && Applies(q, p) && Derivable(q, p)
    ensures d in Enumeration(q, AllCompatible()) && d.topology == p.topology && |d.stages| == |p.slots|
  {
    d := EverywhereIsDrafted(q, p);
    CertifiedPatternsAreCatalogue();
    AllDraftsAreExact(q, AllCompatible(), CertifiedPatterns(), d);
    DraftIsPath(q, p, NeedsOf(q, p), Everywhere(p));
    PathDraftGraph(d, Stages(p.slots));
  }

  lemma ImageRequestIsWellFormed() returns (q: Request)
    ensures GraphBuilder.Buildable(ImageProfile()) && q == CompiledRequest(ImageProfile())
    ensures WellFormedRequest(q) && q.explicit == map[] && q.required && ModelModalities(q) == {ImageData}
  {
    ImageProfileIsBuildable();
    q := CompiledRequest(ImageProfile());
    RequestIsWellFormed(q);
    ImageModalities(q);
  }

  lemma RetrievalPattern() returns (p: Pattern)
    ensures p == PatternOf(PrimaryRetrievalPrimary) && p in CertifiedPatterns() && Shaped(p)
    ensures p.topology == PrimaryRetrievalPrimary && p.slots == SlotsOf(PrimaryRetrievalPrimary)
  {
    p := PatternOf(PrimaryRetrievalPrimary);
    CertifiedPatternsAreCatalogue();
    CertifiedIsShaped(PrimaryRetrievalPrimary);
  }

  /** The image request has a draft of three stages, and no generator policy accepts it. */
  lemma ImageWorkloadIsRejected() returns (q: Request, d: Draft)
    ensures WellFormedRequest(q) && q.explicit == map[] && q.required && !CarriesText(q)
    ensures d in Enumeration(q, AllCompatible()) && d.topology == PrimaryRetrievalPrimary && |d.stages| == 3
    ensures forall policy :: !Accepts(q, AllCompatible(), policy, d)
  {
    q := ImageRequestIsWellFormed();
    var p := RetrievalPattern();
    RetrievalApplies(ImageProfile());
    RetrievalIsDerivable(q, p);
    d := EverywhereIsEnumerated(q, p);
    forall policy ensures !Accepts(q, AllCompatible(), policy, d) {
      WithoutTextCompositionFails(q, AllCompatible(), policy, d);
    }
  }
}
