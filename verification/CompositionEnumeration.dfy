/** All drafts of a request, in canonical order: certified patterns in turn, bindings of each in the
    order of exact identities. */
module CompositionEnumeration {
  import opened IntelligenceModels
  import opened Digraph
  import opened CompositionPatterns
  import opened CompositionBindings
  import opened CompositionInstantiation
  import opened CompositionDrafts
  import opened ModelRegistry
  import opened Sequences
  import ExecutionGraphs
  import Keys
  import Orders

  // ----- which bindings a request has

  ghost predicate MayBind(q: Request, compatible: Compatibility, needs: Needs, role: Role, r: Record)
    requires role in needs
  {
    role !in BlockedRoles(q) && r in q.registry && compatible(r, needs[role].requirements)
  }

  /** Each slot holds a registered, compatible record of a role whose evidence is not refused, with one
      model for each identity group. */
  ghost predicate Admissible(q: Request, compatible: Compatibility, p: Pattern, needs: Needs, b: Binding)
    requires needs.Keys == RolesOf(p)
  {
    Agrees(p.slots, b) && AllMayBind(q, compatible, p, needs, b)
  }

  ghost predicate AllMayBind(q: Request, compatible: Compatibility, p: Pattern, needs: Needs, b: Binding)
    requires needs.Keys == RolesOf(p) && |b| == |p.slots|
  {
    forall i {:trigger b[i]} :: 0 <= i < |b| ==> MayBind(q, compatible, needs, RoleAt(p, i), b[i])
  }

  function RoleAt(p: Pattern, i: nat): (r: Role)
    requires i < |p.slots|
    ensures r in RolesOf(p)
  {
    assert p.slots[i] in p.slots;
    p.slots[i].role
  }

  function BindingsFor(q: Request, compatible: Compatibility, p: Pattern, needs: Needs): seq<Binding>
    requires needs.Keys == RolesOf(p)
  {
    BindingsOf(p.slots, CandidatesByRole(q, compatible, needs))
  }

  lemma CandidatesAreExact(q: Request, compatible: Compatibility, p: Pattern, needs: Needs, i: nat, r: Record)
    requires needs.Keys == RolesOf(p) && i < |p.slots|
    ensures r in Choices(p.slots, CandidatesByRole(q, compatible, needs))[i] <==>
              MayBind(q, compatible, needs, RoleAt(p, i), r)
  {
    assert Choices(p.slots, CandidatesByRole(q, compatible, needs))[i] == CandidatesFor(q, compatible, needs, RoleAt(p, i));
  }

  lemma ChosenMayBind(q: Request, compatible: Compatibility, p: Pattern, needs: Needs, b: Binding)
    requires needs.Keys == RolesOf(p) && |b| == |p.slots|
    ensures (forall i :: 0 <= i < |p.slots| ==> b[i] in Choices(p.slots, CandidatesByRole(q, compatible, needs))[i])
            <==> AllMayBind(q, compatible, p, needs, b)
  {
    forall i | 0 <= i < |b|
      ensures b[i] in Choices(p.slots, CandidatesByRole(q, compatible, needs))[i]
              <==> MayBind(q, compatible, needs, RoleAt(p, i), b[i])
    {
      CandidatesAreExact(q, compatible, p, needs, i, b[i]);
    }
  }

  /** Enumeration finds the admissible bindings and no others. */
  lemma BindingsForAreExact(q: Request, compatible: Compatibility, p: Pattern, needs: Needs, b: Binding)
    requires needs.Keys == RolesOf(p)
    ensures b in BindingsFor(q, compatible, p, needs) <==> Admissible(q, compatible, p, needs, b)
  {
    BindingsAreExact(p.slots, CandidatesByRole(q, compatible, needs), b);
    if |b| == |p.slots| { ChosenMayBind(q, compatible, p, needs, b); }
  }

  lemma BindingsForAscend(q: Request, compatible: Compatibility, p: Pattern, needs: Needs)
    requires IsRegistry(q.registry) && needs.Keys == RolesOf(p)
    ensures Ascends(BindingsFor(q, compatible, p, needs), BindingKey)
    ensures forall i, j :: 0 <= i < j < |BindingsFor(q, compatible, p, needs)| ==>
              BindingsFor(q, compatible, p, needs)[i] != BindingsFor(q, compatible, p, needs)[j]
  {
    var candidates := CandidatesByRole(q, compatible, needs);
    forall role | role in candidates ensures IsRegistry(candidates[role]) {
      if role !in BlockedRoles(q) {
        KeptAscends(q.registry, r => compatible(r, needs[role].requirements), IdentityKey);
      }
    }
    BindingsAscend(p.slots, candidates);
  }

  // ----- the drafts

  ghost function DraftAt(q: Request, compatible: Compatibility, p: Pattern, needs: Needs, i: nat): Draft
    requires Usable(needs, p) && i < |BindingsFor(q, compatible, p, needs)|
  {
    var b := BindingsFor(q, compatible, p, needs)[i];
    BindingsForAreExact(q, compatible, p, needs, b);
    DraftOf(q, p, needs, b)
  }

  ghost function DraftsWith(q: Request, compatible: Compatibility, p: Pattern, needs: Needs): seq<Draft>
    requires Usable(needs, p)
  {
    seq(|BindingsFor(q, compatible, p, needs)|,
        i requires 0 <= i < |BindingsFor(q, compatible, p, needs)| => DraftAt(q, compatible, p, needs, i))
  }

  ghost function DraftsFor(q: Request, compatible: Compatibility, p: Pattern): seq<Draft>
    requires WellFormedRequest(q) && Shaped(p)
  {
    if Applies(q, p) && Derivable(q, p) then
      NeedsCover(q, p);
      DraftsWith(q, compatible, p, NeedsOf(q, p))
    else []
  }

  ghost function DraftsOver(q: Request, compatible: Compatibility, ps: seq<Pattern>): seq<Draft>
    requires WellFormedRequest(q) && forall p :: p in ps ==> Shaped(p)
  {
    if ps == [] then []
    else DraftsOver(q, compatible, ps[..|ps|-1]) + DraftsFor(q, compatible, ps[|ps|-1])
  }

  ghost predicate IsDraftWith(q: Request, compatible: Compatibility, p: Pattern, needs: Needs, b: Binding, d: Draft)
    requires Usable(needs, p)
  {
    Admissible(q, compatible, p, needs, b) && d == DraftOf(q, p, needs, b)
  }

  /** The pattern applies, every role has a requirement, and d is built from the admissible binding b. */
  ghost predicate IsDraftOf(q: Request, compatible: Compatibility, p: Pattern, b: Binding, d: Draft)
    requires WellFormedRequest(q)
  {
    && Shaped(p) && Applies(q, p) && Derivable(q, p)
    && Usable(NeedsOf(q, p), p) && IsDraftWith(q, compatible, p, NeedsOf(q, p), b, d)
  }

  lemma DraftsWithAreExact(q: Request, compatible: Compatibility, p: Pattern, needs: Needs, d: Draft)
    requires Usable(needs, p)
    ensures d in DraftsWith(q, compatible, p, needs) <==> exists b :: IsDraftWith(q, compatible, p, needs, b, d)
  {
    var bindings := BindingsFor(q, compatible, p, needs);
    if i :| 0 <= i < |bindings| && DraftsWith(q, compatible, p, needs)[i] == d {
      BindingsForAreExact(q, compatible, p, needs, bindings[i]);
      assert IsDraftWith(q, compatible, p, needs, bindings[i], d);
    }
    if b :| IsDraftWith(q, compatible, p, needs, b, d) {
      BindingsForAreExact(q, compatible, p, needs, b);
      var i :| 0 <= i < |bindings| && bindings[i] == b;
      assert DraftsWith(q, compatible, p, needs)[i] == d;
    }
  }

  lemma DraftsForAreExact(q: Request, compatible: Compatibility, p: Pattern, d: Draft)
    requires WellFormedRequest(q) && Shaped(p)
    ensures d in DraftsFor(q, compatible, p) <==> exists b :: IsDraftOf(q, compatible, p, b, d)
  {
    if Applies(q, p) && Derivable(q, p) {
      NeedsCover(q, p);
      var needs := NeedsOf(q, p);
      DraftsWithAreExact(q, compatible, p, needs, d);
      forall b ensures IsDraftWith(q, compatible, p, needs, b, d) <==> IsDraftOf(q, compatible, p, b, d) {}
    }
  }

  lemma LastOrBefore<T>(s: seq<T>, x: T)
    requires s != []
    ensures x in s <==> x in s[..|s|-1] || x == s[|s|-1]
  {
    assert s == s[..|s|-1] + [s[|s|-1]];
  }

  lemma {:induction false} DraftsOverAreExact(q: Request, compatible: Compatibility, ps: seq<Pattern>, d: Draft)
    requires WellFormedRequest(q) && forall p :: p in ps ==> Shaped(p)
    ensures d in DraftsOver(q, compatible, ps) <==> exists p :: p in ps && d in DraftsFor(q, compatible, p)
  {
    if ps != [] {
      DraftsOverAreExact(q, compatible, ps[..|ps|-1], d);
      forall p ensures p in ps <==> p in ps[..|ps|-1] || p == ps[|ps|-1] { LastOrBefore(ps, p); }
    }
  }

  // ----- no two drafts are alike

  /** What identifies a draft semantically: no provenance, no evidence. */
  datatype StageSemantics = StageSemantics(
    role: Role, model: Identity, requirements: Requirements,
    inputs: map<string, Artifact>, outputs: map<string, Artifact>)

  datatype Signature = Signature(
    topology: Topology, patternId: string, stages: map<string, StageSemantics>,
    edges: set<HandoffEdge>, satisfied: set<string>)

  function SignatureOf(d: Draft): Signature {
    Signature(d.topology, d.patternId,
              map s | s in d.stages :: SemanticsOf(d.stages[s]), d.edges, d.satisfied)
  }

  function SemanticsOf(s: Stage): StageSemantics {
    StageSemantics(s.role, s.record.identity, s.requirements, s.inputs, s.outputs)
  }

  ghost predicate Alike(d: Draft, e: Draft) { SignatureOf(d) == SignatureOf(e) || d.id == e.id }

  lemma AlikeStage(q: Request, p: Pattern, needs: Needs, b: Binding, c: Binding, i: nat)
    requires Shaped(p) && Usable(needs, p) && |b| == |c| == |p.slots| && i < |b|
    requires Alike(DraftOf(q, p, needs, b), DraftOf(q, p, needs, c))
    ensures b[i].identity == c[i].identity
  {
    var d, e := DraftOf(q, p, needs, b), DraftOf(q, p, needs, c);
    if d.id == e.id {
      assert d.id.stages[i] == e.id.stages[i];
    } else {
      var stage := p.slots[i].stage;
      IndexOfStage(p, i);
      assert stage in d.stages && stage in e.stages;
      assert SignatureOf(d).stages[stage] == SignatureOf(e).stages[stage];
    }
  }

  /** Drafts of one pattern with one signature, or one id, come from one binding. */
  lemma AlikeMeansSame(q: Request, compatible: Compatibility, p: Pattern, needs: Needs, b: Binding, c: Binding)
    requires IsRegistry(q.registry) && Shaped(p) && Usable(needs, p)
    requires Admissible(q, compatible, p, needs, b) && Admissible(q, compatible, p, needs, c)
    requires Alike(DraftOf(q, p, needs, b), DraftOf(q, p, needs, c))
    ensures b == c
  {
    forall i | 0 <= i < |b| ensures b[i] == c[i] {
      AlikeStage(q, p, needs, b, c, i);
      RegistryIdentitiesUnique(q.registry, b[i], c[i]);
    }
  }

  ghost predicate AllDiffer(drafts: seq<Draft>) {
    forall i, j :: 0 <= i < j < |drafts| ==> !Alike(drafts[i], drafts[j])
  }

  lemma DraftsDifferAt(q: Request, compatible: Compatibility, p: Pattern, needs: Needs, i: nat, j: nat)
    requires IsRegistry(q.registry) && Shaped(p) && Usable(needs, p) && i < j < |BindingsFor(q, compatible, p, needs)|
    ensures !Alike(DraftAt(q, compatible, p, needs, i), DraftAt(q, compatible, p, needs, j))
  {
    var b, c := BindingsFor(q, compatible, p, needs)[i], BindingsFor(q, compatible, p, needs)[j];
    BindingsForAscend(q, compatible, p, needs);
    BindingsForAreExact(q, compatible, p, needs, b);
    BindingsForAreExact(q, compatible, p, needs, c);
    if Alike(DraftOf(q, p, needs, b), DraftOf(q, p, needs, c)) { AlikeMeansSame(q, compatible, p, needs, b, c); }
  }

  lemma DraftsWithDiffer(q: Request, compatible: Compatibility, p: Pattern, needs: Needs)
    requires IsRegistry(q.registry) && Shaped(p) && Usable(needs, p)
    ensures AllDiffer(DraftsWith(q, compatible, p, needs))
  {
    var drafts := DraftsWith(q, compatible, p, needs);
    forall i, j | 0 <= i < j < |drafts| ensures !Alike(drafts[i], drafts[j]) {
      DraftsDifferAt(q, compatible, p, needs, i, j);
    }
  }

  lemma AppendDiffers(a: seq<Draft>, b: seq<Draft>)
    requires AllDiffer(a) && AllDiffer(b) && forall d, e :: d in a && e in b ==> !Alike(d, e)
    ensures AllDiffer(a + b)
  {}

  lemma DraftsForTopology(q: Request, compatible: Compatibility, p: Pattern, d: Draft)
    requires WellFormedRequest(q) && Shaped(p) && d in DraftsFor(q, compatible, p)
    ensures d.topology == d.id.topology == p.topology
  {
    DraftsForAreExact(q, compatible, p, d);
  }

  lemma OtherPatternDiffers(q: Request, compatible: Compatibility, ps: seq<Pattern>, last: Pattern, d: Draft, e: Draft)
    requires WellFormedRequest(q) && Shaped(last) && forall p :: p in ps ==> Shaped(p) && p.topology != last.topology
    requires d in DraftsOver(q, compatible, ps) && e in DraftsFor(q, compatible, last)
    ensures !Alike(d, e)
  {
    DraftsOverAreExact(q, compatible, ps, d);
    var p :| p in ps && d in DraftsFor(q, compatible, p);
    DraftsForTopology(q, compatible, p, d);
    DraftsForTopology(q, compatible, last, e);
    DifferentTopologies(d, e);
  }

  lemma DifferentTopologies(d: Draft, e: Draft)
    requires d.topology == d.id.topology != e.topology == e.id.topology
    ensures !Alike(d, e)
  {}

  lemma {:induction false} DraftsOverDiffer(q: Request, compatible: Compatibility, ps: seq<Pattern>)
    requires WellFormedRequest(q) && forall p :: p in ps ==> Shaped(p)
    requires forall i, j :: 0 <= i < j < |ps| ==> ps[i].topology != ps[j].topology
    ensures AllDiffer(DraftsOver(q, compatible, ps))
  {
    if ps != [] {
      var init, last := ps[..|ps|-1], ps[|ps|-1];
      DraftsOverDiffer(q, compatible, init);
      if Applies(q, last) && Derivable(q, last) {
        NeedsCover(q, last);
        DraftsWithDiffer(q, compatible, last, NeedsOf(q, last));
      }
      forall d, e | d in DraftsOver(q, compatible, init) && e in DraftsFor(q, compatible, last) ensures !Alike(d, e) {
        OtherPatternDiffers(q, compatible, init, last, d, e);
      }
      AppendDiffers(DraftsOver(q, compatible, init), DraftsFor(q, compatible, last));
    }
  }

  // ----- over the seven certified patterns

  function TopologyAt(i: nat): Topology
    requires i < 7
  {
    if i == 0 then Single else if i == 1 then PrimaryVerifier else if i == 2 then PrimaryCritic
    else if i == 3 then PrimarySpecialistPrimary else if i == 4 then PrimaryRetrievalPrimary
    else if i == 5 then PrimaryToolPrimary else PrimarySpecialistVerifier
  }

  function Rank(t: Topology): (i: nat)
    ensures i < 7 && TopologyAt(i) == t
  {
    match t
    case Single => 0
    case PrimaryVerifier => 1
    case PrimaryCritic => 2
    case PrimarySpecialistPrimary => 3
    case PrimaryRetrievalPrimary => 4
    case PrimaryToolPrimary => 5
    case PrimarySpecialistVerifier => 6
  }

  function CertifiedPatterns(): seq<Pattern> { seq(7, i requires 0 <= i < 7 => PatternOf(TopologyAt(i))) }

  ghost predicate IsCatalogue(ps: seq<Pattern>) {
    && (forall p :: p in ps ==> p == PatternOf(p.topology) && Shaped(p))
    && (forall t :: PatternOf(t) in ps)
    && (forall i, j :: 0 <= i < j < |ps| ==> ps[i].topology != ps[j].topology)
  }

  lemma TopologyAtInjective(i: nat, j: nat)
    requires i < 7 && j < 7 && TopologyAt(i) == TopologyAt(j)
    ensures i == j
  {}

  lemma PatternOfTopology(t: Topology)
    ensures PatternOf(t).topology == t && Shaped(PatternOf(t))
  {
    CertifiedIsShaped(t);
  }

  lemma CatalogueFrom(ps: seq<Pattern>)
    requires |ps| == 7 && forall i :: 0 <= i < 7 ==> ps[i] == PatternOf(ps[i].topology) && Shaped(ps[i])
    requires forall i :: 0 <= i < 7 ==> ps[i].topology == TopologyAt(i)
    ensures IsCatalogue(ps)
  {
    forall t ensures PatternOf(t) in ps {
      assert ps[Rank(t)].topology == t;
    }
    forall i, j | 0 <= i < j < |ps| ensures ps[i].topology != ps[j].topology {
      if TopologyAt(i) == TopologyAt(j) { TopologyAtInjective(i, j); }
    }
  }

  lemma CertifiedPatternsAreCatalogue()
    ensures IsCatalogue(CertifiedPatterns())
  {
    var ps := CertifiedPatterns();
    forall i | 0 <= i < 7 ensures ps[i].topology == TopologyAt(i) && ps[i] == PatternOf(TopologyAt(i)) && Shaped(ps[i]) {
      PatternOfTopology(TopologyAt(i));
    }
    CatalogueFrom(ps);
  }

  /** The drafts of a request are those of its admissible bindings, over all the patterns. */
  lemma AllDraftsAreExact(q: Request, compatible: Compatibility, ps: seq<Pattern>, d: Draft)
    requires WellFormedRequest(q) && IsCatalogue(ps)
    ensures d in DraftsOver(q, compatible, ps) <==> exists p, b :: p in ps && IsDraftOf(q, compatible, p, b, d)
  {
    DraftsOverAreExact(q, compatible, ps, d);
    if p :| p in ps && d in DraftsFor(q, compatible, p) {
      DraftsForAreExact(q, compatible, p, d);
    }
    if p, b :| p in ps && IsDraftOf(q, compatible, p, b, d) {
      DraftsForAreExact(q, compatible, p, d);
    }
  }

  /** No two drafts of a request share a signature or a composition id, so merging duplicates is never
      reached. */
  lemma AllDraftsDiffer(q: Request, compatible: Compatibility, ps: seq<Pattern>)
    requires WellFormedRequest(q) && IsCatalogue(ps)
    ensures AllDiffer(DraftsOver(q, compatible, ps))
  {
    DraftsOverDiffer(q, compatible, ps);
  }
}
