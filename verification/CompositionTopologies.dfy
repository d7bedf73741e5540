/** Which topologies a request gets drafts of, in terms of the request alone: its graph's nodes, its
    explicit roles, and, for compiled workloads, its capabilities. */
module CompositionTopologies {
  import opened IntelligenceModels
  import opened ExecutionGraphs
  import opened CompositionPatterns
  import opened CompositionBindings
  import opened CompositionInstantiation
  import opened CompositionDrafts
  import opened CompositionEnumeration
  import opened CompositionGeneration
  import opened ModelRegistry
  import GraphBuilder
  import WorkloadIntelligence

  /** Some node of the request's graph has the type. */
  ghost predicate SomeNode(q: Request, t: NodeType) { exists n :: n in q.graph.nodes && q.graph.nodes[n].nodeType == t }

  /** What a topology takes: an extra model is called for by a node of the graph or by an explicit role. */
  ghost predicate CalledFor(q: Request, t: Topology) {
    match t
    case Single => !q.required
    case PrimaryVerifier => SomeNode(q, Validation)
    case PrimaryCritic => Critic in q.explicit
    case PrimarySpecialistPrimary => Specialist in q.explicit
    case PrimaryRetrievalPrimary => SomeNode(q, Retrieve)
    case PrimaryToolPrimary => SomeNode(q, Tool)
    case PrimarySpecialistVerifier => Specialist in q.explicit && SomeNode(q, Validation)
  }

  lemma NodeIsThere(q: Request, t: NodeType)
    ensures HasNode(q, t) <==> SomeNode(q, t)
  {
    if SomeNode(q, t) {
      var n :| n in q.graph.nodes && q.graph.nodes[n].nodeType == t;
      assert n in OfType(q.graph, t);
    }
  }

  lemma CalledForExactly(q: Request, t: Topology)
    ensures Applies(q, PatternOf(t)) <==> CalledFor(q, t)
  {
    PatternOfTopology(t);
    NodeIsThere(q, Validation);
    NodeIsThere(q, Retrieve);
    NodeIsThere(q, Tool);
  }

  /** Every role but the specialist and the critic has a derived requirement, once the workload has a
      modality; those two need an explicit one. */
  lemma RequirementsExactly(q: Request, t: Topology)
    ensures Derivable(q, PatternOf(t)) <==>
              forall role :: role in RoleSequence(t) ==>
                role in q.explicit || (role != Specialist && role != Critic && ModelModalities(q) != {})
  {
    RolesOfTopology(t);
  }

  lemma RolesOfTopology(t: Topology)
    ensures forall role :: role in RoleSequence(t) <==> role in RolesOf(PatternOf(t))
  {
    var p := PatternOf(t);
    CertifiedSlots(t);
    forall role | role in RoleSequence(t) ensures role in RolesOf(p) {
      var i :| 0 <= i < |RoleSequence(t)| && RoleSequence(t)[i] == role;
      assert Roles(p.slots)[i] == role && p.slots[i] in p.slots;
    }
    forall role | role in RolesOf(p) ensures role in RoleSequence(t) {
      var i :| 0 <= i < |p.slots| && p.slots[i].role == role;
      assert Roles(p.slots)[i] == role;
    }
  }

  /** Some registered record may fill the role. */
  ghost predicate HasCandidate(q: Request, compatible: Compatibility, needs: Needs, role: Role)
    requires role in needs
  {
    role !in BlockedRoles(q) && exists r :: r in q.registry && compatible(r, needs[role].requirements)
  }

  ghost function AnyCandidate(q: Request, compatible: Compatibility, needs: Needs, role: Role): (r: Record)
    requires role in needs && HasCandidate(q, compatible, needs, role)
    ensures MayBind(q, compatible, needs, role, r)
  {
    var r :| r in q.registry && compatible(r, needs[role].requirements);
    r
  }

  lemma GroupsHaveOneRole(t: Topology)
    ensures var slots := SlotsOf(t);
            forall i, j :: 0 <= i < |slots| && 0 <= j < |slots| && slots[i].group.Some? && slots[i].group == slots[j].group ==>
              slots[i].role == slots[j].role
  {}

  /** Slots that must hold one model have one role, so that a candidate for each role is enough. */
  lemma BindingExistsExactly(q: Request, compatible: Compatibility, t: Topology, needs: Needs)
    requires needs.Keys == RolesOf(PatternOf(t))
    ensures (exists b :: Admissible(q, compatible, PatternOf(t), needs, b)) <==>
              forall role :: role in needs ==> HasCandidate(q, compatible, needs, role)
  {
    var p := PatternOf(t);
    if b :| Admissible(q, compatible, p, needs, b) {
      forall role | role in needs ensures HasCandidate(q, compatible, needs, role) {
        var i :| 0 <= i < |p.slots| && p.slots[i].role == role;
        assert MayBind(q, compatible, needs, RoleAt(p, i), b[i]);
      }
    }
    if forall role :: role in needs ==> HasCandidate(q, compatible, needs, role) {
      var b := seq(|p.slots|, i requires 0 <= i < |p.slots| => AnyCandidate(q, compatible, needs, RoleAt(p, i)));
      GroupsHaveOneRole(t);
      assert Agrees(p.slots, b);
      assert Admissible(q, compatible, p, needs, b);
    }
  }

  /** A request has a draft of a topology if and only if the topology is called for, and each of its
      roles is explicit or derivable, is not blocked, and has a registered compatible record. */
  lemma TopologyIsEnumeratedExactly(q: Request, compatible: Compatibility, t: Topology)
    requires WellFormedRequest(q)
    ensures (exists d :: d in Enumeration(q, compatible) && d.topology == t) <==>
              && CalledFor(q, t)
              && (forall role :: role in RoleSequence(t) ==>
                    role in q.explicit || (role != Specialist && role != Critic && ModelModalities(q) != {}))
              && Derivable(q, PatternOf(t))
              && (forall role :: role in NeedsOf(q, PatternOf(t)) ==>
                    HasCandidate(q, compatible, NeedsOf(q, PatternOf(t)), role))
  {
    RequirementsExactly(q, t);
    DraftsOfTopology(q, compatible, t);
    if Derivable(q, PatternOf(t)) {
      BindingExistsExactly(q, compatible, t, NeedsOf(q, PatternOf(t)));
    }
  }

  lemma DraftsOfTopology(q: Request, compatible: Compatibility, t: Topology)
    requires WellFormedRequest(q)
    ensures (exists d :: d in Enumeration(q, compatible) && d.topology == t) <==>
              && CalledFor(q, t) && Derivable(q, PatternOf(t))
              && exists b :: Admissible(q, compatible, PatternOf(t), NeedsOf(q, PatternOf(t)), b)
  {
    var p := PatternOf(t);
    PatternOfTopology(t);
    CalledForExactly(q, t);
    CertifiedPatternsAreCatalogue();
    if d :| d in Enumeration(q, compatible) && d.topology == t {
      AllDraftsAreExact(q, compatible, CertifiedPatterns(), d);
      var p', b :| p' in CertifiedPatterns() && IsDraftOf(q, compatible, p', b, d);
      assert p' == p;
    }
    if CalledFor(q, t) && Derivable(q, p) {
      NeedsCover(q, p);
      if b :| Admissible(q, compatible, p, NeedsOf(q, p), b) {
        var d := DraftOf(q, p, NeedsOf(q, p), b);
        assert IsDraftOf(q, compatible, p, b, d);
        AllDraftsAreExact(q, compatible, CertifiedPatterns(), d);
      }
    }
  }

  /** A request over the graph compiled from a profile. */
  ghost predicate IsCompiled(q: Request) {
    GraphBuilder.Buildable(q.profile) && q.graph == GraphBuilder.Chain(GraphBuilder.StagesUpTo(q.profile, 9), q.profile)
  }

  lemma StageIsCalledFor(q: Request, k: nat)
    requires IsCompiled(q) && k in {3, 4, 7}
    ensures SomeNode(q, GraphBuilder.StageType(k)) <==> GraphBuilder.Present(q.profile, k)
  {
    GraphBuilder.StagePresent(q.profile, k);
    NodeIsThere(q, GraphBuilder.StageType(k));
  }

  /** For a compiled workload, the capabilities of its profile call for the topologies: retrieval, tools
      or code execution, and structured output of a workload that is not itself structured. */
  lemma CapabilitiesCallForTopologies(q: Request)
    requires IsCompiled(q)
    ensures CalledFor(q, PrimaryRetrievalPrimary) <==> Capability.Retrieval in q.profile.capabilities
    ensures CalledFor(q, PrimaryToolPrimary) <==> ToolUse in q.profile.capabilities || CodeExecution in q.profile.capabilities
    ensures CalledFor(q, PrimaryVerifier) <==>
              StructuredOutput in q.profile.capabilities && q.profile.modalities != [StructuredData]
    ensures CalledFor(q, PrimarySpecialistVerifier) <==> CalledFor(q, PrimaryVerifier) && CalledFor(q, PrimarySpecialistPrimary)
  {
    RetrievalIsCalledFor(q);
    ToolsAreCalledFor(q);
    VerificationIsCalledFor(q);
  }

  lemma RetrievalIsCalledFor(q: Request)
    requires IsCompiled(q)
    ensures SomeNode(q, Retrieve) <==> Capability.Retrieval in q.profile.capabilities
  {
    StageIsCalledFor(q, 3);
  }

  lemma ToolsAreCalledFor(q: Request)
    requires IsCompiled(q)
    ensures SomeNode(q, Tool) <==> ToolUse in q.profile.capabilities || CodeExecution in q.profile.capabilities
  {
    StageIsCalledFor(q, 4);
  }

  lemma VerificationIsCalledFor(q: Request)
    requires IsCompiled(q)
    ensures SomeNode(q, Validation) <==> StructuredOutput in q.profile.capabilities && q.profile.modalities != [StructuredData]
  {
    StageIsCalledFor(q, 7);
  }

  /** From signals to topologies: references call for a retrieval model, tools for a tool model, and
      required structured output for a verifier unless the input is structured data. */
  lemma SignalsCallForTopologies(s: WorkloadIntelligence.Signals, q: Request)
    requires WorkloadIntelligence.Infer(s) == Some(q.profile) && IsCompiled(q)
    ensures CalledFor(q, PrimaryRetrievalPrimary) <==> s.contextReferences != {}
    ensures CalledFor(q, PrimaryToolPrimary) <==> s.toolUse == Some(true) || s.declaredTools != {}
    ensures CalledFor(q, PrimaryVerifier) <==> s.structuredOutput == Some(true) && s.modalities != {"structured_data"}
  {
    WorkloadIntelligence.InferredCapabilities(s, q.profile.modalities[0]);
    WorkloadIntelligence.InferredModality(s);
    CapabilitiesCallForTopologies(q);
  }

  /** The modality is named by the signals: by its own value, or, for text, as code. */
  ghost predicate IsNamed(s: WorkloadIntelligence.Signals, m: ModelModality) {
    ModalityValue(m) in s.modalities || (m == TextData && "code" in s.modalities)
  }

  /** Whether a workload has one modality or several, models are asked for exactly the modalities that
      its signals name. */
  lemma SignalsNameModelModalities(s: WorkloadIntelligence.Signals, q: Request, m: ModelModality)
    requires WorkloadIntelligence.Infer(s) == Some(q.profile) && q.explicitModalities == s.modalities
    ensures m in ModelModalities(q) <==> IsNamed(s, m)
  {
    var w := q.profile.modalities[0];
    assert WorkloadIntelligence.ModalityOf(s) == Some(w) && q.profile.modalities == [w];
    OneModality(q, w, m);
    if w == Multimodal {
      SeveralNamed(s, m);
    } else {
      OneNamed(s, w, m);
    }
  }

  lemma OneModality(q: Request, w: Modality, m: ModelModality)
    requires q.profile.modalities == [w]
    ensures m in ModelModalities(q) <==>
              if w == Multimodal then exists name :: name in q.explicitModalities && OfName(name) == Some(m)
              else OfWorkload(w) == Some(m)
  {
    assert w in q.profile.modalities && forall x :: x in q.profile.modalities ==> x == w;
  }

  lemma SeveralNamed(s: WorkloadIntelligence.Signals, m: ModelModality)
    ensures (exists name :: name in s.modalities && OfName(name) == Some(m)) <==> IsNamed(s, m)
  {
    if name :| name in s.modalities && OfName(name) == Some(m) { NamesAreValues(name, m); }
    NamesAreValues(ModalityValue(m), m);
    NamesAreValues("code", m);
  }

  lemma OneNamed(s: WorkloadIntelligence.Signals, w: Modality, m: ModelModality)
    requires w != Multimodal && WorkloadIntelligence.ModalityOf(s) == Some(w)
    ensures OfWorkload(w) == Some(m) <==> IsNamed(s, m)
  {
    WorkloadIntelligence.InferredModality(s);
  }
}
