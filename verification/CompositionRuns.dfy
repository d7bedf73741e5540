/** The instantiation loops: they build exactly the drafts of CompositionEnumeration. */
module CompositionRuns {
  import opened IntelligenceModels
  import opened Digraph
  import opened CompositionPatterns
  import opened CompositionBindings
  import opened CompositionInstantiation
  import opened CompositionDrafts
  import opened CompositionEnumeration
  import opened ModelRegistry
  import ExecutionGraphs
  import Orders

  method MakeHandoff(q: Request, p: Pattern, needs: Needs, i: nat) returns (e: HandoffEdge)
    requires Usable(needs, p) && i + 1 < |p.slots|
    ensures e == HandoffAt(q, p, needs, i)
  {
    var role := RoleAt(p, i);
    var artifact := Orders.FindLeast(needs[role].outputs.Keys);
    return Arc(p.slots[i].stage, p.slots[i+1].stage, Handoff(ExecutionGraphs.Data, artifact));
  }

  /** The handoffs along the pattern, each carrying the first output artifact of its source. */
  method MakeHandoffs(q: Request, p: Pattern, needs: Needs) returns (edges: set<HandoffEdge>)
    requires Usable(needs, p)
    ensures edges == HandoffsOf(q, p, needs)
  {
    var n := |p.slots| - 1;
    var list: seq<HandoffEdge> := [];
    for i := 0 to n
      invariant |list| == i && forall k :: 0 <= k < i ==> list[k] == HandoffAt(q, p, needs, k)
    {
      var e := MakeHandoff(q, p, needs, i);
      list := list + [e];
    }
    assert list == HandoffList(q, p, needs);
    return set e | e in list;
  }

  /** One stage: what its role requires, on the record bound to it. */
  method MakeStage(role: Role, requirement: RoleRequirement, record: Record) returns (stage: Stage)
    ensures stage == StageOf(role, requirement, record)
  {
    var i := record.identity;
    var text := i.provider + "/" + i.modelId + "/" + i.family + "/" + i.revision;
    var provenance := requirement.provenance + {Reference(4, text)} + {Reference(4, "compatibility:" + text)};
    assert provenance == StageProvenance(requirement, record);
    return Stage(role, record, requirement.requirements, requirement.inputs, requirement.outputs, requirement.ids, provenance);
  }

  /** The stages made so far. */
  ghost predicate Holds(stages: map<string, Stage>, q: Request, p: Pattern, needs: Needs, b: Binding, n: nat)
    requires Usable(needs, p) && |b| == |p.slots| && n <= |p.slots|
  {
    && stages.Keys == (set k | 0 <= k < n :: p.slots[k].stage)
    && forall k :: 0 <= k < n ==> p.slots[k].stage in stages && stages[p.slots[k].stage] == StageAt(q, p, needs, b, k)
  }

  lemma HoldsOneMore(stages: map<string, Stage>, q: Request, p: Pattern, needs: Needs, b: Binding, n: nat)
    requires Shaped(p) && Usable(needs, p) && |b| == |p.slots| && n < |p.slots| && Holds(stages, q, p, needs, b, n)
    ensures Holds(stages[p.slots[n].stage := StageAt(q, p, needs, b, n)], q, p, needs, b, n + 1)
  {
    forall k | 0 <= k < n ensures p.slots[k].stage != p.slots[n].stage {
      assert Stages(p.slots)[k] != Stages(p.slots)[n];
    }
  }

  method MakeStages(q: Request, p: Pattern, needs: Needs, b: Binding) returns (stages: map<string, Stage>)
    requires Shaped(p) && Usable(needs, p) && |b| == |p.slots|
    ensures stages == StagesOf(q, p, needs, b)
  {
    stages := map[];
    for i := 0 to |p.slots|
      invariant Holds(stages, q, p, needs, b, i)
    {
      var slot := p.slots[i];
      assert slot in p.slots;
      HoldsOneMore(stages, q, p, needs, b, i);
      var stage := MakeStage(slot.role, needs[slot.role], b[i]);
      stages := stages[slot.stage := stage];
    }
    StagesByIndex(q, p, needs, b, stages);
  }

  /** What the id digests of the stages. */
  method MakeIdentities(q: Request, p: Pattern, needs: Needs, b: Binding) returns (identities: seq<StageIdentity>)
    requires Usable(needs, p) && |b| == |p.slots|
    ensures identities == SemanticId(q, p, needs, b).stages
  {
    identities := [];
    for i := 0 to |p.slots|
      invariant |identities| == i && forall k :: 0 <= k < i ==> identities[k] == StageIdentityAt(q, p, needs, b, k)
    {
      var slot, record := p.slots[i], b[i];
      assert slot in p.slots;
      var requirement := needs[slot.role];
      identities := identities +
        [StageIdentity(slot.stage, slot.role, record.identity, requirement.ids, requirement.requirements)];
    }
    assert identities == SemanticId(q, p, needs, b).stages;
  }

  lemma StagesByIndex(q: Request, p: Pattern, needs: Needs, b: Binding, stages: map<string, Stage>)
    requires Shaped(p) && Usable(needs, p) && |b| == |p.slots|
    requires Holds(stages, q, p, needs, b, |p.slots|)
    ensures stages == StagesOf(q, p, needs, b)
  {
    StageNames(p, stages.Keys);
    forall x | x in stages ensures stages[x] == StageAt(q, p, needs, b, IndexOf(p, x)) {
      assert p.slots[IndexOf(p, x)].stage == x;
    }
    SameMap(stages, StagesOf(q, p, needs, b));
  }

  lemma SameMap(a: map<string, Stage>, b: map<string, Stage>)
    requires a.Keys == b.Keys && forall x :: x in a ==> a[x] == b[x]
    ensures a == b
  {}

  lemma StageNames(p: Pattern, names: set<string>)
    requires names == set k | 0 <= k < |p.slots| :: p.slots[k].stage
    ensures names == Elements(Stages(p.slots))
  {
    forall x ensures x in names <==> x in Stages(p.slots) {
      if x in Stages(p.slots) {
        assert p.slots[IndexOf(p, x)].stage == x;
      }
      if k :| 0 <= k < |p.slots| && p.slots[k].stage == x {
        assert Stages(p.slots)[k] == x;
      }
    }
  }

  /** A draft, part by part. */
  method MakeDraft(q: Request, p: Pattern, needs: Needs, b: Binding) returns (d: Draft)
    requires WellFormedRequest(q) && Shaped(p) && Covers(needs, p) && Usable(needs, p) && |b| == |p.slots|
    ensures d == DraftOf(q, p, needs, b)
  {
    var stages := MakeStages(q, p, needs, b);
    var identities := MakeIdentities(q, p, needs, b);
    var edges := MakeHandoffs(q, p, needs);
    var roles := set s | s in p.slots :: s.role;
    var satisfied := set role, id | role in roles && id in needs[role].ids :: id;
    var assessments := set c | c in q.constraints && c.role in roles :: c.assessed;
    var provenance := MakeProvenance(q, p);
    d := Draft(CompositionId(q.upstream, p.topology, identities, p.edges), q.upstream, p.id, p.topology, stages, edges,
               satisfied, assessments, provenance);
    DraftIsWellFormed(q, p, needs, b);
    var raisesNothing := CheckDraft(d);
    assert raisesNothing;
  }

  method MakeProvenance(q: Request, p: Pattern) returns (provenance: set<Reference>)
    ensures provenance == DraftProvenance(q.upstream, q.fingerprint, p.id, TopologyValue(p.topology))
  {
    provenance := {Reference(2, q.upstream.requestId)};
    provenance := provenance + {Reference(3, q.upstream.graphId)};
    provenance := provenance + {Reference(4, q.fingerprint)};
    provenance := provenance + {Reference(5, p.id), Reference(5, "reason:" + TopologyValue(p.topology))};
  }

  datatype InstantiationIssue =
    | UnsupportedRequirement(topology: Topology)
    | EvidenceUnacceptable(topology: Topology, role: Role)
    | NoCompatibleRecord(topology: Topology, role: Role)

  /** Why a role has no candidate, if it has none. */
  function Lack(q: Request, compatible: Compatibility, t: Topology, needs: Needs,
                role: Role): Option<InstantiationIssue>
    requires role in needs
  {
    if role in BlockedRoles(q) then Some(EvidenceUnacceptable(t, role))
    else if CandidatesFor(q, compatible, needs, role) == [] then Some(NoCompatibleRecord(t, role))
    else None
  }

  function Lacks(q: Request, compatible: Compatibility, t: Topology, needs: Needs,
                 roles: set<Role>): set<InstantiationIssue>
    requires roles <= needs.Keys
  {
    set role | role in roles && Lack(q, compatible, t, needs, role).Some? :: Lack(q, compatible, t, needs, role).value
  }

  /** Why an applicable pattern contributes no draft. */
  predicate Arises(q: Request, compatible: Compatibility, p: Pattern, i: InstantiationIssue) {
    && Applies(q, p)
    && if Derivable(q, p) then i in Lacks(q, compatible, p.topology, NeedsOf(q, p), RolesOf(p))
       else i == UnsupportedRequirement(p.topology)
  }

  lemma LacksGrow(q: Request, compatible: Compatibility, t: Topology, needs: Needs, roles: set<Role>, role: Role)
    requires roles <= needs.Keys && role in needs
    ensures var lack := Lack(q, compatible, t, needs, role);
            Lacks(q, compatible, t, needs, roles + {role}) ==
              Lacks(q, compatible, t, needs, roles) + if lack.Some? then {lack.value} else {}
  {}

  method RoleCandidates(q: Request, compatible: Compatibility, t: Topology, needs: Needs, role: Role,
                        blocked: set<Role>)
    returns (found: seq<Record>, lack: Option<InstantiationIssue>)
    requires IsRegistry(q.registry) && role in needs && blocked == BlockedRoles(q)
    ensures found == CandidatesFor(q, compatible, needs, role) && lack == Lack(q, compatible, t, needs, role)
  {
    if role in blocked {
      return [], Some(EvidenceUnacceptable(t, role));
    }
    found := DiscoverCapabilities(q.registry, needs[role].requirements, compatible);
    return found, if found == [] then Some(NoCompatibleRecord(t, role)) else None;
  }

  /** The candidate records of each role, and the roles that have none. */
  method FindCandidates(q: Request, compatible: Compatibility, t: Topology, needs: Needs, blocked: set<Role>)
    returns (candidates: Candidates, issues: set<InstantiationIssue>)
    requires IsRegistry(q.registry) && blocked == BlockedRoles(q)
    ensures candidates == CandidatesByRole(q, compatible, needs)
    ensures issues == Lacks(q, compatible, t, needs, needs.Keys)
  {
    candidates, issues := map[], {};
    var todo := needs.Keys;
    while todo != {}
      invariant todo <= needs.Keys && candidates.Keys == needs.Keys - todo
      invariant forall r :: r in candidates ==> candidates[r] == CandidatesFor(q, compatible, needs, r)
      invariant issues == Lacks(q, compatible, t, needs, needs.Keys - todo)
      decreases todo
    {
      var role :| role in todo;
      LacksGrow(q, compatible, t, needs, needs.Keys - todo, role);
      assert needs.Keys - (todo - {role}) == needs.Keys - todo + {role};
      todo := todo - {role};
      var found, lack := RoleCandidates(q, compatible, t, needs, role, blocked);
      candidates := candidates[role := found];
      if lack.Some? {
        issues := issues + {lack.value};
      }
    }
    assert needs.Keys - todo == needs.Keys;
  }

  /** The drafts of a list of bindings. */
  method MakeDrafts(q: Request, p: Pattern, needs: Needs, bindings: seq<Binding>, ghost all: seq<Draft>)
    returns (drafts: seq<Draft>)
    requires WellFormedRequest(q) && Shaped(p) && Covers(needs, p) && Usable(needs, p)
    requires |all| == |bindings|
    requires forall i :: 0 <= i < |all| ==> |bindings[i]| == |p.slots| && all[i] == DraftOf(q, p, needs, bindings[i])
    ensures drafts == all
  {
    drafts := [];
    for i := 0 to |bindings|
      invariant drafts == all[..i]
    {
      var d := MakeDraft(q, p, needs, bindings[i]);
      drafts := drafts + [d];
    }
  }

  lemma DraftsByBinding(q: Request, compatible: Compatibility, p: Pattern, needs: Needs)
    requires Usable(needs, p)
    ensures var bindings, all := BindingsFor(q, compatible, p, needs), DraftsWith(q, compatible, p, needs);
            |all| == |bindings| &&
            forall i :: 0 <= i < |all| ==> |bindings[i]| == |p.slots| && all[i] == DraftOf(q, p, needs, bindings[i])
  {
    var bindings := BindingsFor(q, compatible, p, needs);
    forall i | 0 <= i < |bindings|
      ensures |bindings[i]| == |p.slots| && DraftsWith(q, compatible, p, needs)[i] == DraftOf(q, p, needs, bindings[i])
    {
      BindingsForAreExact(q, compatible, p, needs, bindings[i]);
      assert DraftsWith(q, compatible, p, needs)[i] == DraftAt(q, compatible, p, needs, i);
    }
  }

  method DraftsOfPattern(q: Request, compatible: Compatibility, p: Pattern, needs: Needs, blocked: set<Role>)
    returns (drafts: seq<Draft>, issues: set<InstantiationIssue>)
    requires WellFormedRequest(q) && Shaped(p) && Covers(needs, p) && Usable(needs, p) && blocked == BlockedRoles(q)
    ensures drafts == DraftsWith(q, compatible, p, needs)
    ensures issues == Lacks(q, compatible, p.topology, needs, RolesOf(p))
  {
    var candidates;
    candidates, issues := FindCandidates(q, compatible, p.topology, needs, blocked);
    if r :| r in candidates && candidates[r] == [] {
      NoCandidateNoDraft(q, compatible, p, needs, r);
      return [], issues;
    }
    drafts := DraftBindings(q, compatible, p, needs, candidates);
  }

  lemma NoCandidateNoDraft(q: Request, compatible: Compatibility, p: Pattern, needs: Needs, role: Role)
    requires Usable(needs, p) && role in needs && CandidatesByRole(q, compatible, needs)[role] == []
    ensures DraftsWith(q, compatible, p, needs) == []
  {
    var s :| s in p.slots && s.role == role;
    EmptyRoleEmptyBindings(p.slots, CandidatesByRole(q, compatible, needs), role);
  }

  /** The drafts of all bindings of the candidates. */
  method DraftBindings(q: Request, compatible: Compatibility, p: Pattern, needs: Needs, candidates: Candidates)
    returns (drafts: seq<Draft>)
    requires WellFormedRequest(q) && Shaped(p) && Covers(needs, p) && Usable(needs, p)
    requires candidates == CandidatesByRole(q, compatible, needs)
    ensures drafts == DraftsWith(q, compatible, p, needs)
  {
    var bindings := Bindings(p.slots, candidates);
    assert bindings == BindingsFor(q, compatible, p, needs);
    DraftsByBinding(q, compatible, p, needs);
    drafts := MakeDrafts(q, p, needs, bindings, DraftsWith(q, compatible, p, needs));
  }

  method InstantiatePattern(q: Request, compatible: Compatibility, p: Pattern, blocked: set<Role>)
    returns (drafts: seq<Draft>, issues: set<InstantiationIssue>)
    requires WellFormedRequest(q) && Shaped(p) && blocked == BlockedRoles(q)
    ensures drafts == DraftsFor(q, compatible, p)
    ensures forall i :: i in issues <==> Arises(q, compatible, p, i)
  {
    var applies := PatternApplies(q, p);
    if !applies {
      return [], {};
    }
    var needs := DeriveRoleRequirements(q, p);
    if needs.None? {
      return [], {UnsupportedRequirement(p.topology)};
    }
    NeedsCover(q, p);
    var raisesNothing := CheckNeeds(needs.value);
    assert raisesNothing;
    drafts, issues := DraftsOfPattern(q, compatible, p, needs.value, blocked);
  }

  ghost predicate ArisesBefore(q: Request, compatible: Compatibility, ps: seq<Pattern>, k: nat, i: InstantiationIssue)
    requires k <= |ps|
  {
    exists j :: 0 <= j < k && Arises(q, compatible, ps[j], i)
  }

  lemma DraftsOverPrefix(q: Request, compatible: Compatibility, ps: seq<Pattern>, k: nat)
    requires WellFormedRequest(q) && (forall p :: p in ps ==> Shaped(p)) && k < |ps|
    ensures DraftsOver(q, compatible, ps[..k+1]) == DraftsOver(q, compatible, ps[..k]) + DraftsFor(q, compatible, ps[k])
  {
    assert ps[..k+1][..k] == ps[..k];
  }

  lemma ArisesNext(q: Request, compatible: Compatibility, ps: seq<Pattern>, k: nat, i: InstantiationIssue)
    requires k < |ps|
    ensures ArisesBefore(q, compatible, ps, k + 1, i) <==>
              ArisesBefore(q, compatible, ps, k, i) || Arises(q, compatible, ps[k], i)
  {}

  /** All drafts of a request over the given patterns, and why the applicable ones lack some. */
  method Instantiate(q: Request, compatible: Compatibility, ps: seq<Pattern>)
    returns (drafts: seq<Draft>, issues: set<InstantiationIssue>)
    requires WellFormedRequest(q) && forall p :: p in ps ==> Shaped(p)
    ensures drafts == DraftsOver(q, compatible, ps)
    ensures forall i :: i in issues <==> ArisesBefore(q, compatible, ps, |ps|, i)
  {
    var blocked := FindBlockedRoles(q);
    drafts, issues := [], {};
    for k := 0 to |ps|
      invariant drafts == DraftsOver(q, compatible, ps[..k])
      invariant forall i :: i in issues <==> ArisesBefore(q, compatible, ps, k, i)
    {
      DraftsOverPrefix(q, compatible, ps, k);
      forall i ensures ArisesBefore(q, compatible, ps, k + 1, i) <==>
          ArisesBefore(q, compatible, ps, k, i) || Arises(q, compatible, ps[k], i) {
        ArisesNext(q, compatible, ps, k, i);
      }
      var more, problems := InstantiatePattern(q, compatible, ps[k], blocked);
      drafts, issues := drafts + more, issues + problems;
    }
    assert ps[..|ps|] == ps;
  }
}
