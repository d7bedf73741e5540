/** Enumerator and validator agree: an instantiated draft can only be rejected for its handoffs or its
    evidence, and this module says exactly when it is. */
module CompositionAgreement {
  import opened IntelligenceModels
  import opened Digraph
  import opened Paths
  import opened ExecutionGraphs
  import opened CompositionPatterns
  import opened CompositionBindings
  import opened CompositionInstantiation
  import opened CompositionDrafts
  import opened CompositionEnumeration
  import opened CompositionValidation
  import opened ModelRegistry
  import opened Texts
  import opened Sets
  import PatternShapes

  /** The context that generation builds for a draft. */
  function ContextFor(q: Request, d: Draft): ValidationContext { ValidationContext(q.upstream, q.registry, d.satisfied) }

  // ----- topology

  lemma StageOfSlot(q: Request, p: Pattern, needs: Needs, b: Binding, i: nat)
    requires Shaped(p) && Usable(needs, p) && |b| == |p.slots| && i < |p.slots|
    ensures p.slots[i].stage in StagesOf(q, p, needs, b)
    ensures StagesOf(q, p, needs, b)[p.slots[i].stage] == StageAt(q, p, needs, b, i)
  {
    IndexOfStage(p, i);
  }

  ghost predicate IsPathDraft(d: Draft, ids: seq<string>) {
    d.stages.Keys == Elements(ids) && IsPath(ids, d.edges)
  }

  lemma PathDraftGraph(d: Draft, ids: seq<string>)
    requires IsPathDraft(d, ids)
    ensures |d.stages| == |ids| && IsConnectedDag(d.stages.Keys, d.edges) && ValidHandoffs(d) == d.edges
  {
    PathIsConnectedDag(ids, d.edges);
    DistinctSize(ids);
    assert |d.stages| == |d.stages.Keys|;
  }

  lemma PathDraftEnds(d: Draft, ids: seq<string>)
    requires IsPathDraft(d, ids)
    ensures OneEntryOneExit(d)
  {
    PathDraftGraph(d, ids);
    PathEndsCounted(ids, d.edges);
  }

  lemma PathEndsCounted<L>(ids: seq<string>, edges: set<Arc<L>>)
    requires IsPath(ids, edges)
    ensures |Entries(Elements(ids), edges)| == 1 && |Exits(Elements(ids), edges)| == 1
  {
    PathEnds(ids, edges);
  }

  lemma PathDraftRaisesNothing(d: Draft, ids: seq<string>, i: Issue)
    requires IsPathDraft(d, ids)
    ensures !EdgeRaises(d, i) && !GraphRaises(d, i)
  {
    PathDraftGraph(d, ids);
    PathDraftEnds(d, ids);
    FlagsAreGraphIssues(d, i, false, true, false, false);
  }

  lemma DraftIsPath(q: Request, p: Pattern, needs: Needs, b: Binding)
    requires Shaped(p) && Usable(needs, p) && |b| == |p.slots|
    ensures IsPathDraft(DraftOf(q, p, needs, b), Stages(p.slots))
  {
    HandoffsMakeAPath(q, p, needs);
  }

  lemma SlotsAgree(q: Request, p: Pattern, needs: Needs, b: Binding)
    requires Shaped(p) && Usable(needs, p) && |b| == |p.slots|
    ensures MatchesSlots(DraftOf(q, p, needs, b), p)
  {
    forall s | s in p.slots
      ensures s.stage in StagesOf(q, p, needs, b) && StagesOf(q, p, needs, b)[s.stage].role == s.role
    {
      var i :| 0 <= i < |p.slots| && p.slots[i] == s;
      StageOfSlot(q, p, needs, b, i);
    }
  }

  lemma ListCount<L>(ids: seq<string>, along: seq<Arc<L>>)
    requires Distinct(ids) && |along| <= |ids| && forall i :: 0 <= i < |along| ==> along[i].src == ids[i]
    ensures |set e | e in along| == |along|
  {
    forall i, j | 0 <= i < j < |along| ensures along[i] != along[j] {
      assert ids[i] != ids[j];
    }
    ListSize(along);
  }

  lemma ListMatchesEdges(d: Draft, p: Pattern, list: seq<HandoffEdge>)
    requires Shaped(p) && IsPathDraft(d, Stages(p.slots)) && d.edges == (set e | e in list) && |list| + 1 == |p.slots|
    requires forall i :: 0 <= i < |list| ==> list[i].src == Stages(p.slots)[i] && Projected(list[i]) == PathEdge(p.slots, i)
    ensures MatchesEdges(d, p)
  {
    PathDraftGraph(d, Stages(p.slots));
    ListCount(Stages(p.slots), list);
    PatternShapes.PathEdgesCount(p.slots);
    ProjectedList(list, p);
  }

  lemma EdgesAgree(q: Request, p: Pattern, needs: Needs, b: Binding)
    requires Shaped(p) && Usable(needs, p) && |b| == |p.slots|
    ensures MatchesEdges(DraftOf(q, p, needs, b), p)
  {
    DraftIsPath(q, p, needs, b);
    var list := HandoffList(q, p, needs);
    forall i | 0 <= i < |list| ensures list[i].src == Stages(p.slots)[i] && Projected(list[i]) == PathEdge(p.slots, i) {
      HandoffEnds(q, p, needs, i);
    }
    ListMatchesEdges(DraftOf(q, p, needs, b), p, list);
  }

  lemma ProjectedList(list: seq<HandoffEdge>, p: Pattern)
    requires |list| + 1 == |p.slots| && forall i :: 0 <= i < |list| ==> Projected(list[i]) == PathEdge(p.slots, i)
    ensures (set e | e in (set x | x in list) :: Projected(e)) == PathEdges(p.slots)
  {
    forall i | 0 <= i < |list| ensures PathEdge(p.slots, i) in set e | e in (set x | x in list) :: Projected(e) {
      assert list[i] in set x | x in list;
    }
  }

  lemma TopologyAgrees(q: Request, p: Pattern, needs: Needs, b: Binding, i: Issue)
    requires Shaped(p) && Usable(needs, p) && |b| == |p.slots|
    ensures !TopologyRaises(DraftOf(q, p, needs, b), p, i)
  {
    DraftIsPath(q, p, needs, b);
    SlotsAgree(q, p, needs, b);
    EdgesAgree(q, p, needs, b);
    MatchingPathRaisesNothing(DraftOf(q, p, needs, b), p, i);
  }

  lemma MatchingPathRaisesNothing(d: Draft, p: Pattern, i: Issue)
    requires Shaped(p) && IsPathDraft(d, Stages(p.slots)) && MatchesSlots(d, p) && MatchesEdges(d, p)
    requires d.topology == p.topology && d.patternId == p.id
    ensures !TopologyRaises(d, p, i)
  {
    PathDraftGraph(d, Stages(p.slots));
    PathDraftRaisesNothing(d, Stages(p.slots), i);
  }

  // ----- identity, coverage, provenance, id

  lemma StagesAgree(q: Request, compatible: Compatibility, p: Pattern, needs: Needs, b: Binding, stage: string)
    requires Shaped(p) && Usable(needs, p) && Admissible(q, compatible, p, needs, b)
    requires stage in StagesOf(q, p, needs, b)
    ensures var s := StagesOf(q, p, needs, b)[stage]; s.record in q.registry && compatible(s.record, s.requirements)
  {
    var i := IndexOf(p, stage);
    assert MayBind(q, compatible, needs, RoleAt(p, i), b[i]);
  }

  lemma TwoPrimaries(d: Draft, first: string, last: string)
    requires first != last && first in d.stages && last in d.stages
    requires forall s :: s in d.stages ==> (d.stages[s].role == Primary <==> s == first || s == last)
    requires d.stages[first].record.identity == d.stages[last].record.identity
    ensures OnePrimaryModel(d)
  {
    assert Primaries(d) == {first, last};
  }

  lemma PrimaryAtTheEnds(q: Request, p: Pattern, needs: Needs, b: Binding, s: string)
    requires Shaped(p) && Usable(needs, p) && |b| == |p.slots| && Returns(p.topology) && s in StagesOf(q, p, needs, b)
    ensures |p.slots| == 3
    ensures StagesOf(q, p, needs, b)[s].role == Primary <==> s == p.slots[0].stage || s == p.slots[2].stage
  {
    StageOfSlot(q, p, needs, b, 0);
    StageOfSlot(q, p, needs, b, 2);
    var i := IndexOf(p, s);
    assert StagesOf(q, p, needs, b)[s] == StageAt(q, p, needs, b, i);
  }

  lemma PrimariesAgree(q: Request, compatible: Compatibility, p: Pattern, needs: Needs, b: Binding)
    requires Shaped(p) && Usable(needs, p) && Admissible(q, compatible, p, needs, b) && Returns(p.topology)
    ensures OnePrimaryModel(DraftOf(q, p, needs, b))
  {
    var d := DraftOf(q, p, needs, b);
    var first, last := p.slots[0].stage, p.slots[2].stage;
    StageOfSlot(q, p, needs, b, 0);
    StageOfSlot(q, p, needs, b, 2);
    forall s | s in d.stages ensures d.stages[s].role == Primary <==> s == first || s == last {
      PrimaryAtTheEnds(q, p, needs, b, s);
    }
    assert Stages(p.slots)[0] != Stages(p.slots)[2];
    SameModel(p, b);
    TwoPrimaries(d, first, last);
  }

  lemma SameModel(p: Pattern, b: Binding)
    requires Agrees(p.slots, b) && PairsPrimaries(p) && Returns(p.topology)
    ensures b[0].identity == b[2].identity
  {
    assert p.slots[0].group == p.slots[2].group;
  }

  lemma IdentityAgrees(q: Request, compatible: Compatibility, p: Pattern, needs: Needs, b: Binding, i: Issue)
    requires WellFormedRequest(q) && Shaped(p) && Usable(needs, p) && Admissible(q, compatible, p, needs, b)
    ensures !IdentityRaises(DraftOf(q, p, needs, b), ContextFor(q, DraftOf(q, p, needs, b)), compatible, p, i)
  {
    if Returns(p.topology) { PrimariesAgree(q, compatible, p, needs, b); }
    if (i.Unregistered? || i.Incompatible?) && i.stage in StagesOf(q, p, needs, b) {
      StagesAgree(q, compatible, p, needs, b, i.stage);
    }
  }

  lemma EveryIdIsJustified(q: Request, p: Pattern, needs: Needs, b: Binding, id: string)
    requires Shaped(p) && Covers(needs, p) && Usable(needs, p) && |b| == |p.slots| && id in SatisfiedIds(p, needs)
    ensures id in JustifiedIds(DraftOf(q, p, needs, b))
  {
    var role :| role in RolesOf(p) && id in needs[role].ids;
    var i :| 0 <= i < |p.slots| && p.slots[i].role == role;
    StageOfSlot(q, p, needs, b, i);
    assert WellFormedRequirement(needs[role]);
    var stages := StagesOf(q, p, needs, b);
    assert p.slots[i].stage in stages && id in stages[p.slots[i].stage].justified && Nonblank(id);
  }

  lemma CoverageAgrees(q: Request, p: Pattern, needs: Needs, b: Binding, i: Issue)
    requires Shaped(p) && Covers(needs, p) && Usable(needs, p) && |b| == |p.slots|
    ensures !CoverageRaises(DraftOf(q, p, needs, b), ContextFor(q, DraftOf(q, p, needs, b)), i)
  {
    forall id | id in SatisfiedIds(p, needs) ensures id in JustifiedIds(DraftOf(q, p, needs, b)) {
      EveryIdIsJustified(q, p, needs, b, id);
    }
    if (i.NoJustification? || i.BlankJustification?) && i.stage in StagesOf(q, p, needs, b) {
      assert WellFormedRequirement(needs[RoleAt(p, IndexOf(p, i.stage))]);
    }
  }

  lemma ProvenanceAgrees(q: Request, p: Pattern, needs: Needs, b: Binding, i: Issue)
    requires WellFormedRequest(q) && Shaped(p) && Covers(needs, p) && Usable(needs, p) && |b| == |p.slots|
    ensures !ProvenanceRaises(DraftOf(q, p, needs, b), i)
  {
    DraftProvenanceIsSound(q.upstream, q.fingerprint, p.id, TopologyValue(p.topology));
    if i.NoStageProvenance? && i.stage in StagesOf(q, p, needs, b) {
      var k := IndexOf(p, i.stage);
      assert Reference(4, RecordText(b[k])) in StagesOf(q, p, needs, b)[i.stage].provenance;
    }
  }

  /** The id that the validator recomputes from the draft is the one instantiation put there. */
  lemma IdAgrees(q: Request, p: Pattern, needs: Needs, b: Binding)
    requires Shaped(p) && Usable(needs, p) && |b| == |p.slots|
    ensures RecomputedId(DraftOf(q, p, needs, b), p) == Some(DraftOf(q, p, needs, b).id)
  {
    var d := DraftOf(q, p, needs, b);
    forall i | 0 <= i < |p.slots|
      ensures p.slots[i].stage in d.stages && Recomputed(d, p.slots[i]) == StageIdentityAt(q, p, needs, b, i)
    {
      StageIdentityAgrees(q, p, needs, b, i);
    }
    RecomputedStages(d, p, d.id.stages);
  }

  lemma RecomputedStages(d: Draft, p: Pattern, stages: seq<StageIdentity>)
    requires |stages| == |p.slots|
    requires forall i :: 0 <= i < |stages| ==> p.slots[i].stage in d.stages && Recomputed(d, p.slots[i]) == stages[i]
    ensures RecomputedId(d, p) == Some(CompositionId(d.upstream, p.topology, stages, p.edges))
  {
    assert forall s :: s in p.slots ==> s.stage in d.stages;
    assert RecomputedId(d, p).value.stages == stages;
  }

  lemma StageIdentityAgrees(q: Request, p: Pattern, needs: Needs, b: Binding, i: nat)
    requires Shaped(p) && Usable(needs, p) && |b| == |p.slots| && i < |p.slots|
    ensures p.slots[i].stage in StagesOf(q, p, needs, b)
    ensures Recomputed(DraftOf(q, p, needs, b), p.slots[i]) == StageIdentityAt(q, p, needs, b, i)
  {
    StageOfSlot(q, p, needs, b, i);
  }

  /** The main agreement: whatever the validator holds against an instantiated draft is about evidence
      or about a handoff. */
  lemma OnlyHandoffsAndEvidence(q: Request, compatible: Compatibility, p: Pattern, needs: Needs, b: Binding, i: Issue)
    requires WellFormedRequest(q) && Shaped(p) && Covers(needs, p) && Usable(needs, p)
    requires Admissible(q, compatible, p, needs, b)
    ensures var d := DraftOf(q, p, needs, b);
            Raises(d, ContextFor(q, d), compatible, p, i) <==> EvidenceRaises(d, i) || HandoffRaises(d, i)
  {
    TopologyAgrees(q, p, needs, b, i);
    IdentityAgrees(q, compatible, p, needs, b, i);
    CoverageAgrees(q, p, needs, b, i);
    ProvenanceAgrees(q, p, needs, b, i);
    IdAgrees(q, p, needs, b);
  }
}
