/** Context prediction: sources are grouped into candidates, references are the latest sequences, and
    the best predictions are kept. Scoring is a parameter. */
module ContextPrediction {
  import Orders
  import opened IntelligenceModels
  import opened Keys
  import opened Sequences
  import opened Sets
  import opened Texts
  import opened ContextStore

  const MAX_CANDIDATES: nat := 256
  const MAX_SOURCES_PER_CANDIDATE: nat := 128
  const MAX_PREDICTIONS: nat := 64

  /** A source comes from the memory of a session or from a namespace of the given kind. */
  datatype SourceKind = Session | Global(namespaceKind: string)

  /** A source record in canonical form: its lists are sets. `scope` is the id of its session or
      namespace, `rest` the fields of the record that nothing below looks into. */
  datatype Source = Source(
    kind: SourceKind, id: string, scope: string, contextKey: string, active: bool, sequence: int,
    artifacts: set<string>, phase8Ids: set<string>, provenance: set<string>, conflicting: bool, version: int,
    rest: string)

  datatype SessionScope = SessionScope(namespace: Namespace, id: string)

  /** What a call passes besides its sources. `closures` are those of the store, none without a store. */
  datatype PredictionRequest = PredictionRequest(
    namespace: Namespace, session: Option<SessionScope>, dependencyKeys: seq<string>, closures: seq<Closure>,
    horizon: Option<nat>, limit: nat)

  type Domain = (SourceKind, string)
  type Groups = map<string, set<Source>>

  function Identity(s: Source): Domain { (s.kind, s.id) }
  function SequenceDomain(s: Source): Domain { (s.kind, s.scope) }

  /** The source belongs to the session or the namespace of the request, and what it attests is there. */
  predicate InScope(q: PredictionRequest, s: Source) {
    && HasEvidence(s)
    && match s.kind
       case Session => q.session.Some? && q.session.value.id == s.scope && Nonblank(s.contextKey)
       case Global(kind) => Namespace(kind, s.scope) == q.namespace
  }

  /** Artifacts and provenance, and for a global source its lineage, none of them blank. */
  predicate HasEvidence(s: Source) {
    && s.artifacts != {} && s.provenance != {} && (s.kind.Global? ==> s.phase8Ids != {})
    && forall t :: t in s.artifacts + s.provenance + s.phase8Ids ==> Nonblank(t)
  }

  /** The call itself is in order, whatever its sources. */
  predicate InOrder(q: PredictionRequest) {
    && (forall k :: k in q.dependencyKeys ==> Nonblank(k))
    && (q.session.Some? ==> q.session.value.namespace == q.namespace)
    && (forall c :: c in q.closures ==> !Malformed(c) && c.namespace != q.namespace)
  }

  function Elements(sources: seq<Source>): set<Source> { set s | s in sources }

  // ----- candidates

  function ActiveKeys(sources: set<Source>): set<string> { set s | s in sources && s.active :: s.contextKey }

  function EvidenceFor(sources: set<Source>, key: string): set<Source> {
    set s | s in sources && s.active && s.contextKey == key
  }

  function GroupsOf(sources: set<Source>): Groups {
    map key | key in ActiveKeys(sources) :: EvidenceFor(sources, key)
  }

  function GlobalIds(evidence: set<Source>): set<string> { set s | s in evidence && s.kind.Global? :: s.id }

  function Phase8Ids(evidence: set<Source>): set<string> {
    (set s | s in evidence && s.kind == Session :: s.id) + (set s, i | s in evidence && i in s.phase8Ids :: i)
  }

  predicate FitsCandidate(evidence: set<Source>) {
    |GlobalIds(evidence)| + |Phase8Ids(evidence)| <= MAX_SOURCES_PER_CANDIDATE
  }

  predicate Agree(a: Source, b: Source) { Identity(a) == Identity(b) ==> a == b }

  /** Nothing in the candidate builder raises. */
  ghost predicate Acceptable(q: PredictionRequest, sources: set<Source>) {
    && InOrder(q)
    && (forall s :: s in sources ==> InScope(q, s))
    && (forall a, b :: a in sources && b in sources ==> Agree(a, b))
    && |ActiveKeys(sources)| <= MAX_CANDIDATES
    && (forall key :: key in ActiveKeys(sources) ==> FitsCandidate(EvidenceFor(sources, key)))
  }

  /** The dictionary of identities holds exactly the sources seen so far. */
  ghost predicate Identified(identities: map<Domain, Source>, seen: set<Source>) {
    && (forall s :: s in seen ==> Identity(s) in identities && identities[Identity(s)] == s)
    && (forall d :: d in identities ==> identities[d] in seen && Identity(identities[d]) == d)
  }

  lemma IdentifiedAgree(identities: map<Domain, Source>, seen: set<Source>)
    requires Identified(identities, seen)
    ensures forall a, b :: a in seen && b in seen ==> Agree(a, b)
  {}

  lemma ActiveKeysGrow(seen: set<Source>, s: Source)
    ensures ActiveKeys(seen + {s}) == ActiveKeys(seen) + (if s.active then {s.contextKey} else {})
  {}

  lemma EvidenceGrows(seen: set<Source>, s: Source, key: string)
    ensures EvidenceFor(seen + {s}, key) ==
              EvidenceFor(seen, key) + (if s.active && key == s.contextKey then {s} else {})
  {}

  lemma InactiveAddsNothing(seen: set<Source>, s: Source)
    requires !s.active
    ensures GroupsOf(seen + {s}) == GroupsOf(seen)
  {
    ActiveKeysGrow(seen, s);
    forall key | key in ActiveKeys(seen) ensures EvidenceFor(seen + {s}, key) == EvidenceFor(seen, key) {
      EvidenceGrows(seen, s, key);
    }
  }

  lemma ActiveJoinsItsGroup(seen: set<Source>, s: Source)
    requires s.active
    ensures GroupsOf(seen + {s}) == GroupsOf(seen)[s.contextKey := EvidenceFor(seen, s.contextKey) + {s}]
  {
    ActiveKeysGrow(seen, s);
    forall key | key in ActiveKeys(seen + {s})
      ensures EvidenceFor(seen + {s}, key) ==
              EvidenceFor(seen, key) + (if key == s.contextKey then {s} else {})
    {
      EvidenceGrows(seen, s, key);
    }
    var grown, was := GroupsOf(seen + {s}), GroupsOf(seen)[s.contextKey := EvidenceFor(seen, s.contextKey) + {s}];
    assert grown.Keys == was.Keys;
    assert forall key :: key in grown ==> grown[key] == was[key];
  }

  /** Nothing that contains these sources is acceptable. */
  ghost predicate Hopeless(q: PredictionRequest, some: set<Source>) {
    forall all :: some <= all ==> !Acceptable(q, all)
  }

  lemma TooManyKeys(q: PredictionRequest, some: set<Source>)
    requires |ActiveKeys(some)| > MAX_CANDIDATES
    ensures Hopeless(q, some)
  {
    forall all | some <= all ensures !Acceptable(q, all) {
      SubsetSize(ActiveKeys(some), ActiveKeys(all));
    }
  }

  lemma OutOfScope(q: PredictionRequest, some: set<Source>, s: Source)
    requires s in some && !InScope(q, s)
    ensures Hopeless(q, some)
  {}

  lemma Disagreement(q: PredictionRequest, some: set<Source>, a: Source, b: Source)
    requires a in some && b in some && !Agree(a, b)
    ensures Hopeless(q, some)
  {}

  lemma EvidenceOfNoKey(seen: set<Source>, key: string)
    requires key !in ActiveKeys(seen)
    ensures EvidenceFor(seen, key) == {}
  {
    assert forall s :: s in seen && s.active ==> s.contextKey in ActiveKeys(seen);
  }

  ghost predicate Collected(q: PredictionRequest, seen: set<Source>, identities: map<Domain, Source>, grouped: Groups) {
    && Identified(identities, seen) && (forall s :: s in seen ==> InScope(q, s))
    && grouped == GroupsOf(seen) && |ActiveKeys(seen)| <= MAX_CANDIDATES
  }

  lemma IdentifiedGrows(identities: map<Domain, Source>, seen: set<Source>, s: Source)
    requires Identified(identities, seen) && Identity(s) !in identities
    ensures Identified(identities[Identity(s) := s], seen + {s})
  {}

  lemma CollectedGrows(q: PredictionRequest, seen: set<Source>, s: Source, identities: map<Domain, Source>,
                       grouped: Groups, grouped': Groups)
    requires Collected(q, seen, identities, grouped) && InScope(q, s) && Identity(s) !in identities
    requires grouped' == GroupsOf(seen + {s}) && (|ActiveKeys(seen + {s})| <= MAX_CANDIDATES || !s.active)
    ensures Collected(q, seen + {s}, identities[Identity(s) := s], grouped')
  {
    IdentifiedGrows(identities, seen, s);
    ActiveKeysGrow(seen, s);
  }

  /** The group of an active source gains it; None when that makes one group too many. */
  method Group(ghost seen: set<Source>, s: Source, grouped: Groups) returns (r: Option<Groups>)
    requires grouped == GroupsOf(seen)
    ensures r.Some? <==> |ActiveKeys(seen + {s})| <= MAX_CANDIDATES || !s.active
    ensures r.Some? ==> r.value == GroupsOf(seen + {s})
  {
    if !s.active {
      InactiveAddsNothing(seen, s);
      return Some(grouped);
    }
    ActiveJoinsItsGroup(seen, s);
    if s.contextKey !in grouped { EvidenceOfNoKey(seen, s.contextKey); }
    var evidence := (if s.contextKey in grouped then grouped[s.contextKey] else {}) + {s};
    var grown := grouped[s.contextKey := evidence];
    assert grown.Keys == ActiveKeys(seen + {s});
    if |grown| > MAX_CANDIDATES {
      return None;
    }
    return Some(grown);
  }

  /** The contract of source evidence. */
  method CheckEvidence(s: Source) returns (ok: bool)
    ensures ok <==> HasEvidence(s)
  {
    if s.artifacts == {} || s.provenance == {} {
      return false;
    }
    if exists t :: t in s.artifacts && !Nonblank(t) {
      return false;
    }
    if exists t :: t in s.provenance && !Nonblank(t) {
      return false;
    }
    if exists t :: t in s.phase8Ids && !Nonblank(t) {
      return false;
    }
    return s.kind == Session || s.phase8Ids != {};
  }

  method AdaptSession(s: Source, session: Option<SessionScope>) returns (ok: bool)
    requires s.kind == Session
    ensures ok <==> session.Some? && s.scope == session.value.id && Nonblank(s.contextKey) && HasEvidence(s)
  {
    if session.None? || s.scope != session.value.id || !Nonblank(s.contextKey) {
      return false;
    }
    ok := CheckEvidence(s);
  }

  method AdaptGlobal(s: Source, namespace: Namespace) returns (ok: bool)
    requires s.kind.Global?
    ensures ok <==> s.kind.namespaceKind == namespace.kind && s.scope == namespace.id && HasEvidence(s)
  {
    if (s.kind.namespaceKind, s.scope) != (namespace.kind, namespace.id) {
      return false;
    }
    ok := CheckEvidence(s);
  }

  method Adapt(q: PredictionRequest, s: Source) returns (ok: bool)
    ensures ok <==> InScope(q, s)
  {
    if s.kind == Session {
      ok := AdaptSession(s, q.session);
    } else {
      ok := AdaptGlobal(s, q.namespace);
    }
  }

  /** The checks on the call: dependency keys, the session's namespace, the closures of the store. */
  method CheckCall(q: PredictionRequest) returns (ok: bool)
    ensures ok <==> InOrder(q)
  {
    for i := 0 to |q.dependencyKeys|
      invariant forall j :: 0 <= j < i ==> Nonblank(q.dependencyKeys[j])
    {
      if !Nonblank(q.dependencyKeys[i]) {
        return false;
      }
    }
    if q.session.Some? && q.session.value.namespace != q.namespace {
      return false;
    }
    for i := 0 to |q.closures|
      invariant forall j :: 0 <= j < i ==> !Malformed(q.closures[j])
    {
      var c := q.closures[i];
      if !Nonblank(c.namespace.id) || !Nonblank(c.reason) || !c.closed || c.sequence < 1 {
        assert c in q.closures && Malformed(c);
        return false;
      }
    }
    for i := 0 to |q.closures|
      invariant forall j :: 0 <= j < i ==> q.closures[j].namespace != q.namespace
    {
      if q.closures[i].namespace == q.namespace {
        assert q.closures[i] in q.closures;
        return false;
      }
    }
    return true;
  }

  /** The bound on each group: its global ids, and its session ids together with the lineage. */
  method CheckSizes(grouped: Groups) returns (ok: bool)
    ensures ok <==> forall key :: key in grouped ==> FitsCandidate(grouped[key])
  {
    var todo := grouped.Keys;
    while todo != {}
      invariant todo <= grouped.Keys
      invariant forall key :: key in grouped.Keys - todo ==> FitsCandidate(grouped[key])
      decreases todo
    {
      var key :| key in todo;
      todo := todo - {key};
      var sources := grouped[key];
      var globalIds := set s | s in sources && s.kind.Global? :: s.id;
      var phase8Ids := set s | s in sources && !s.kind.Global? :: s.id;
      phase8Ids := phase8Ids + set s, i | s in sources && i in s.phase8Ids :: i;
      assert globalIds == GlobalIds(sources) && phase8Ids == Phase8Ids(sources);
      if |globalIds| + |phase8Ids| > MAX_SOURCES_PER_CANDIDATE {
        return false;
      }
    }
    return true;
  }

  /** One source: out of scope, in conflict, a repetition, inactive, or one more piece of evidence. */
  method AddSource(q: PredictionRequest, ghost seen: set<Source>, s: Source, identities: map<Domain, Source>, grouped: Groups)
    returns (ok: bool, identities': map<Domain, Source>, grouped': Groups)
    requires Collected(q, seen, identities, grouped)
    ensures ok ==> Collected(q, seen + {s}, identities', grouped')
    ensures !ok ==> Hopeless(q, seen + {s})
  {
    var inScope := Adapt(q, s);
    if !inScope {
      OutOfScope(q, seen + {s}, s);
      return false, identities, grouped;
    }
    var id := Identity(s);
    if id in identities {
      if identities[id] != s {
        Disagreement(q, seen + {s}, identities[id], s);
        return false, identities, grouped;
      }
      assert seen + {s} == seen;
      return true, identities, grouped;
    }
    var groups := Group(seen, s, grouped);
    if groups.None? {
      TooManyKeys(q, seen + {s});
      return false, identities, grouped;
    }
    CollectedGrows(q, seen, s, identities, grouped, groups.value);
    return true, identities[id := s], groups.value;
  }

  lemma ElementsGrow(sources: seq<Source>, i: nat)
    requires i < |sources|
    ensures Elements(sources[..i+1]) == Elements(sources[..i]) + {sources[i]}
    ensures Elements(sources[..i+1]) <= Elements(sources)
  {
    assert sources[..i+1] == sources[..i] + [sources[i]];
  }

  lemma NothingCollected(q: PredictionRequest)
    ensures Collected(q, {}, map[], map[])
  {}

  lemma CollectedIsAcceptable(q: PredictionRequest, seen: set<Source>, identities: map<Domain, Source>, grouped: Groups)
    requires Collected(q, seen, identities, grouped) && InOrder(q)
    ensures Acceptable(q, seen) <==> forall key :: key in grouped ==> FitsCandidate(grouped[key])
  {
    IdentifiedAgree(identities, seen);
    assert forall key :: key in ActiveKeys(seen) ==> key in grouped && grouped[key] == EvidenceFor(seen, key);
    assert forall key :: key in grouped ==> key in ActiveKeys(seen);
  }

  /** A store that only registrations and closings have made holds no malformed closure, so that it
      makes a call fail exactly when the namespace of the request is closed. */
  lemma ReachableStoreIsInOrder(stores: seq<Store>, ops: seq<Operation>, q: PredictionRequest)
    requires IsRun(stores, ops) && stores[0] == EMPTY && q.closures == stores[|ops|].closures
    requires InOrder(q.(closures := []))
    ensures InOrder(q) <==> !IsClosed(stores[|ops|], q.namespace)
  {
    RunsGrow(stores, ops, |ops|, |ops|);
    assert forall c :: c in q.closures ==> c in ClosureSet(stores[|ops|]);
  }

  /** The candidate builder raises exactly when the set of sources is not acceptable, and otherwise
      returns one group for each context key of an active source. */
  method BuildCandidates(q: PredictionRequest, sources: seq<Source>) returns (r: Option<Groups>)
    ensures r.Some? <==> Acceptable(q, Elements(sources))
    ensures r.Some? ==> r.value == GroupsOf(Elements(sources))
  {
    var inOrder := CheckCall(q);
    if !inOrder {
      return None;
    }
    var identities: map<Domain, Source>, grouped: Groups := map[], map[];
    NothingCollected(q);
    assert Elements(sources[..0]) == {};
    for i := 0 to |sources|
      invariant Collected(q, Elements(sources[..i]), identities, grouped)
    {
      ElementsGrow(sources, i);
      var ok;
      ok, identities, grouped := AddSource(q, Elements(sources[..i]), sources[i], identities, grouped);
      if !ok {
        return None;
      }
    }
    assert sources[..|sources|] == sources;
    CollectedIsAcceptable(q, Elements(sources), identities, grouped);
    var fits := CheckSizes(grouped);
    return if fits then Some(grouped) else None;
  }

  /** At most 256 candidates, each with at most 128 source records. */
  lemma CandidatesAreBounded(q: PredictionRequest, sources: set<Source>)
    requires Acceptable(q, sources)
    ensures |GroupsOf(sources)| <= 256
    ensures forall key :: key in GroupsOf(sources) ==>
              var evidence := GroupsOf(sources)[key];
              |set s | s in evidence && s.kind.Global? :: s.id| + |Phase8Ids(evidence)| <= 128
  {
    assert GroupsOf(sources).Keys == ActiveKeys(sources);
    forall key | key in GroupsOf(sources)
      ensures GlobalIds(GroupsOf(sources)[key]) == set s | s in GroupsOf(sources)[key] && s.kind.Global? :: s.id
    {}
  }

  // ----- conservation

  /** The groups partition the active sources: every active source is in the group of its key and in
      no other, and the groups hold nothing else. */
  lemma GroupsPartitionSources(sources: set<Source>, s: Source)
    ensures s in sources && s.active <==> exists key :: key in GroupsOf(sources) && s in GroupsOf(sources)[key]
    ensures forall key :: key in GroupsOf(sources) && s in GroupsOf(sources)[key] ==> key == s.contextKey
    ensures forall key :: key in GroupsOf(sources) ==> GroupsOf(sources)[key] != {}
  {
    if s in sources && s.active {
      assert s.contextKey in GroupsOf(sources) && s in GroupsOf(sources)[s.contextKey];
    }
    forall key | key in GroupsOf(sources) ensures GroupsOf(sources)[key] != {} {
      var t :| t in sources && t.active && t.contextKey == key;
      assert t in EvidenceFor(sources, key);
    }
  }

  // ----- reference sequences and recency

  type References = map<Domain, int>

  ghost predicate AreMaxima(refs: References, sources: set<Source>) {
    && (forall s :: s in sources ==> SequenceDomain(s) in refs && refs[SequenceDomain(s)] >= s.sequence)
    && (forall d :: d in refs ==> exists s :: s in sources && SequenceDomain(s) == d && s.sequence == refs[d])
  }

  function AllEvidence(groups: Groups): set<Source> {
    set key, s | key in groups && s in groups[key] :: s
  }

  method NoteSequences(refs: References, evidence: set<Source>, ghost before: set<Source>) returns (refs': References)
    requires AreMaxima(refs, before) && forall s :: s in evidence ==> s.sequence >= 1
    ensures AreMaxima(refs', before + evidence)
  {
    refs' := refs;
    var todo := evidence;
    assert before + (evidence - todo) == before;
    while todo != {}
      invariant todo <= evidence && AreMaxima(refs', before + (evidence - todo))
      decreases todo
    {
      var s :| s in todo;
      ghost var seen := before + (evidence - todo);
      todo := todo - {s};
      assert before + (evidence - todo) == seen + {s};
      var d := SequenceDomain(s);
      var known := if d in refs' then refs'[d] else 0;
      refs' := refs'[d := if known >= s.sequence then known else s.sequence];
    }
    assert evidence - todo == evidence;
  }

  /** For each sequence domain, the latest sequence among all candidates' evidence. */
  method ReferenceSequences(groups: Groups) returns (refs: References)
    requires forall s :: s in AllEvidence(groups) ==> s.sequence >= 1
    ensures AreMaxima(refs, AllEvidence(groups))
  {
    refs := map[];
    var todo := groups.Keys;
    ghost var seen: set<Source> := {};
    while todo != {}
      invariant todo <= groups.Keys && AreMaxima(refs, seen)
      invariant forall s :: s in seen <==> exists key :: key in groups.Keys - todo && s in groups[key]
      decreases todo
    {
      var key :| key in todo;
      refs := NoteSequences(refs, groups[key], seen);
      seen, todo := seen + groups[key], todo - {key};
    }
    assert seen == AllEvidence(groups);
  }

  datatype RecencyResult = Raised | Unavailable | Recency(value: real)

  /** The reference for the source's domain precedes the source. */
  predicate Behind(s: Source, refs: References) { SequenceDomain(s) in refs && refs[SequenceDomain(s)] < s.sequence }

  predicate Known(s: Source, refs: References) { SequenceDomain(s) in refs && refs[SequenceDomain(s)] >= s.sequence }

  predicate IsLatest(s: Source, refs: References) { SequenceDomain(s) in refs && refs[SequenceDomain(s)] == s.sequence }

  predicate AllKnown(evidence: seq<Source>, refs: References) { forall s :: s in evidence ==> Known(s, refs) }

  /** One over one plus the age of a source. */
  function Freshness(s: Source, refs: References): (f: real)
    requires Known(s, refs)
    ensures 0.0 < f <= 1.0 && (f == 1.0 <==> IsLatest(s, refs))
  {
    1.0 / ((1 + refs[SequenceDomain(s)] - s.sequence) as real)
  }

  function TotalFreshness(evidence: seq<Source>, refs: References): real
    requires AllKnown(evidence, refs)
  {
    if evidence == [] then 0.0
    else TotalFreshness(evidence[..|evidence|-1], refs) + Freshness(evidence[|evidence|-1], refs)
  }

  /** The total lies between 0 and the number of sources, which it reaches when all are the latest. */
  lemma {:induction false} FreshnessBounds(evidence: seq<Source>, refs: References)
    requires AllKnown(evidence, refs)
    ensures 0.0 <= TotalFreshness(evidence, refs) <= |evidence| as real
    ensures evidence != [] ==> TotalFreshness(evidence, refs) > 0.0
    ensures TotalFreshness(evidence, refs) == |evidence| as real <==> forall s :: s in evidence ==> IsLatest(s, refs)
  {
    if evidence != [] {
      var init, last := evidence[..|evidence|-1], evidence[|evidence|-1];
      FreshnessBounds(init, refs);
      assert evidence == init + [last];
      assert Known(last, refs);
    }
  }

  /** The recency feature: an error when a reference precedes a source, nothing when a reference is
      missing, and otherwise the mean freshness. */
  method ComputeRecency(evidence: seq<Source>, refs: References) returns (r: RecencyResult)
    ensures r.Raised? <==> exists s :: s in evidence && Behind(s, refs)
    ensures r.Unavailable? ==> evidence == [] || exists s :: s in evidence && SequenceDomain(s) !in refs
    ensures r.Recency? ==> evidence != [] && AllKnown(evidence, refs)
                           && r.value == TotalFreshness(evidence, refs) / (|evidence| as real)
  {
    var sum, count, missing := 0.0, 0, false;
    for i := 0 to |evidence|
      invariant forall s :: s in evidence[..i] ==> !Behind(s, refs)
      invariant missing <==> exists s :: s in evidence[..i] && SequenceDomain(s) !in refs
      invariant !missing ==> AllKnown(evidence[..i], refs) && sum == TotalFreshness(evidence[..i], refs) && count == i
      invariant count > 0 ==> i > 0
      invariant count == 0 ==> i == 0 || missing
    {
      var s := evidence[i];
      assert evidence[..i+1] == evidence[..i] + [s] && evidence[..i+1][..i] == evidence[..i];
      if SequenceDomain(s) !in refs {
        missing := true;
      } else if refs[SequenceDomain(s)] < s.sequence {
        assert s in evidence && Behind(s, refs);
        return Raised;
      } else {
        sum, count := sum + Freshness(s, refs), count + 1;
      }
    }
    assert evidence[..|evidence|] == evidence;
    if count > 0 && !missing {
      return Recency(sum / (count as real));
    }
    return Unavailable;
  }

  lemma MeanInUnit(sum: real, count: real)
    requires 0.0 < sum <= count
    ensures 0.0 < sum / count <= 1.0 && (sum / count == 1.0 <==> sum == count)
  {}

  /** With the maxima as references, the raise for a reference that precedes its source is
      unreachable, and every candidate has a recency: positive, at most 1, and 1 exactly when all of
      its evidence is the latest of its domain. */
  method CandidateRecency(groups: Groups, key: string, evidence: seq<Source>) returns (r: RecencyResult)
    requires key in groups && groups[key] == Elements(evidence) && evidence != []
    requires forall s :: s in AllEvidence(groups) ==> s.sequence >= 1
    ensures r.Recency? && 0.0 < r.value <= 1.0
    ensures r.value == 1.0 <==> forall s :: s in evidence ==> LatestOfDomain(s, AllEvidence(groups))
  {
    var refs := ReferenceSequences(groups);
    forall s | s in evidence
      ensures s in AllEvidence(groups) && Known(s, refs)
      ensures IsLatest(s, refs) <==> LatestOfDomain(s, AllEvidence(groups))
    {
      assert s in groups[key] && s in AllEvidence(groups);
      LatestByMaxima(refs, AllEvidence(groups), s);
    }
    r := ComputeRecency(evidence, refs);
    FreshnessBounds(evidence, refs);
    MeanInUnit(TotalFreshness(evidence, refs), |evidence| as real);
  }

  ghost predicate LatestOfDomain(s: Source, all: set<Source>) {
    forall t :: t in all && SequenceDomain(t) == SequenceDomain(s) ==> t.sequence <= s.sequence
  }

  lemma LatestByMaxima(refs: References, all: set<Source>, s: Source)
    requires AreMaxima(refs, all) && s in all
    ensures Known(s, refs) && (IsLatest(s, refs) <==> LatestOfDomain(s, all))
  {
    var t :| t in all && SequenceDomain(t) == SequenceDomain(s) && t.sequence == refs[SequenceDomain(s)];
  }

  /** The overlap of two identifier lists: shared over all, nothing when either is empty. */
  function OverlapRatio(left: set<string>, right: set<string>): real {
    if left == {} || right == {} then 0.0
    else
      assert left + right != {};
      |left * right| as real / |left + right| as real
  }

  lemma OverlapIsSimilarity(left: set<string>, right: set<string>)
    ensures 0.0 <= OverlapRatio(left, right) <= 1.0
    ensures OverlapRatio(left, right) == OverlapRatio(right, left)
    ensures OverlapRatio(left, right) == 0.0 <==> left !! right
    ensures OverlapRatio(left, right) == 1.0 <==> left == right != {}
  {
    if left != {} && right != {} {
      assert left * right == right * left && left + right == right + left;
      SubsetSize(left * right, left + right);
      if |left * right| == |left + right| {
        EqualBySize(left * right, left + right);
      }
      if left == right { assert left * right == left + right; }
      RatioOf(|left * right|, |left + right|);
    }
  }

  lemma RatioOf(shared: nat, all: nat)
    requires shared <= all && all > 0
    ensures 0.0 <= shared as real / all as real <= 1.0
    ensures shared as real / all as real == 0.0 <==> shared == 0
    ensures shared as real / all as real == 1.0 <==> shared == all
  {
    var ratio := shared as real / all as real;
    assert ratio * all as real == shared as real;
    if ratio == 1.0 { assert shared as real == all as real; }
  }

  // ----- predictions

  /** The score of a candidate: a horizon (0, 1 or 2, nearest first) and a confidence. */
  datatype Score = Score(horizon: nat, confidence: real)

  type Scorer = (string, set<Source>, References) -> Score

  datatype Prediction = Prediction(contextKey: string, evidence: set<Source>, score: Score)

  /** Nearest horizon, highest confidence, then context key. Keys differ between candidates, so the
      prediction id, which comes last in the tuple, never decides. */
  function PredictionKey(p: Prediction): Key {
    [Num(p.score.horizon as real), Num(-p.score.confidence), Str(p.contextKey)]
  }

  /** p comes before x: a nearer horizon, then a higher confidence, then the smaller context key. */
  predicate Precedes(p: Prediction, x: Prediction) {
    || p.score.horizon < x.score.horizon
    || (p.score.horizon == x.score.horizon && p.score.confidence > x.score.confidence)
    || (p.score == x.score && Orders.Below(p.contextKey, x.contextKey))
  }

  lemma KeyOrder(p: Prediction, x: Prediction)
    ensures Below(PredictionKey(p), PredictionKey(x)) <==> Precedes(p, x)
  {
    var a, b := PredictionKey(p), PredictionKey(x);
    assert a[..0] == b[..0];
    assert a[..1] == [a[0]] && b[..1] == [b[0]] && a[..2] == [a[0], a[1]] && b[..2] == [b[0], b[1]];
    BelowExactly(a, b);
    if Below(a, b) {
      var k :| 0 <= k < |a| && a[..k] == b[..k] && PartBelow(a[k], b[k]);
      assert k >= 1 ==> a[0] == b[0];
      assert k == 2 ==> a[1] == b[1];
    } else {
      assert !PartBelow(a[0], b[0]);
      assert a[..1] == b[..1] ==> !PartBelow(a[1], b[1]);
      assert a[..2] == b[..2] ==> !PartBelow(a[2], b[2]);
    }
  }

  function Predict(groups: Groups, refs: References, scorer: Scorer, horizon: Option<nat>): set<Prediction> {
    set key | key in groups && (horizon.None? || scorer(key, groups[key], refs).horizon == horizon.value)
      :: Prediction(key, groups[key], scorer(key, groups[key], refs))
  }

  function Limit(q: PredictionRequest): nat { if q.limit < MAX_PREDICTIONS then q.limit else MAX_PREDICTIONS }

  lemma PredictionsDiffer(groups: Groups, refs: References, scorer: Scorer, horizon: Option<nat>)
    ensures KeysIdentify(Predict(groups, refs, scorer, horizon), PredictionKey)
  {
    var all := Predict(groups, refs, scorer, horizon);
    forall x, y | x in all && y in all && PredictionKey(x) == PredictionKey(y) ensures x == y {
      assert PredictionKey(x)[2] == PredictionKey(y)[2];
    }
  }

  /** out is the first part, of the permitted length, of the sorted predictions. */
  ghost predicate IsTop(out: seq<Prediction>, all: set<Prediction>, limit: nat) {
    exists full :: Lists(full, all, PredictionKey) && out == full[..if |full| < limit then |full| else limit]
  }

  method AssemblePredictions(groups: Groups, refs: References, scorer: Scorer, q: PredictionRequest)
    returns (out: seq<Prediction>)
    ensures IsTop(out, Predict(groups, refs, scorer, q.horizon), Limit(q))
  {
    var predictions := {};
    var todo := groups.Keys;
    while todo != {}
      invariant todo <= groups.Keys
      invariant predictions == set key | key in groups.Keys - todo
                  && (q.horizon.None? || scorer(key, groups[key], refs).horizon == q.horizon.value)
                  :: Prediction(key, groups[key], scorer(key, groups[key], refs))
      decreases todo
    {
      var key :| key in todo;
      todo := todo - {key};
      var score := scorer(key, groups[key], refs);
      if q.horizon.None? || score.horizon == q.horizon.value {
        predictions := predictions + {Prediction(key, groups[key], score)};
      }
    }
    assert predictions == Predict(groups, refs, scorer, q.horizon);
    var full := SortSet(predictions, PredictionKey);
    out := full[..if |full| < Limit(q) then |full| else Limit(q)];
  }

  /** The predictions kept are as many as the limit admits, in order, and each comes before every one
      that is left out: of a nearer horizon, of a higher confidence, or of a smaller key. */
  lemma TopIsBest(out: seq<Prediction>, all: set<Prediction>, limit: nat)
    requires IsTop(out, all, limit) && KeysIdentify(all, PredictionKey)
    ensures |out| == if |all| < limit then |all| else limit
    ensures forall p :: p in out ==> p in all
    ensures forall i, j :: 0 <= i < j < |out| ==> Precedes(out[i], out[j])
    ensures forall p, x :: p in out && x in all && x !in out ==> Precedes(p, x)
  {
    var full :| Lists(full, all, PredictionKey) && out == full[..if |full| < limit then |full| else limit];
    ListsElements(full, all, PredictionKey);
    ListsAscend(full, all, PredictionKey);
    forall i, j | 0 <= i < j < |out| ensures Precedes(out[i], out[j]) {
      assert out[i] == full[i] && out[j] == full[j];
      KeyOrder(full[i], full[j]);
    }
    forall p, x | p in out && x in all && x !in out ensures Precedes(p, x) {
      KeptBeforeDropped(full, |out|, p, x);
    }
  }

  lemma KeptBeforeDropped(full: seq<Prediction>, n: nat, p: Prediction, x: Prediction)
    requires Ascends(full, PredictionKey) && n <= |full| && p in full[..n] && x in full && x !in full[..n]
    ensures Precedes(p, x)
  {
    var i :| 0 <= i < n && full[..n][i] == p;
    var j :| 0 <= j < |full| && full[j] == x;
    assert forall k :: 0 <= k < n ==> full[..n][k] == full[k] && full[..n][k] in full[..n];
    KeyOrder(full[i], full[j]);
  }

  /** predict_context, end to end. */
  method PredictContext(q: PredictionRequest, sources: seq<Source>, scorer: Scorer) returns (r: Option<seq<Prediction>>)
    requires forall s :: s in sources ==> s.sequence >= 1
    ensures r.Some? <==> Acceptable(q, Elements(sources))
    ensures r.Some? ==> IsPredictionOf(r.value, q, Elements(sources), scorer)
  {
    var groups := BuildCandidates(q, sources);
    if groups.None? {
      return None;
    }
    forall s | s in AllEvidence(groups.value) ensures s.sequence >= 1 {
      assert s in Elements(sources);
    }
    var refs := ReferenceSequences(groups.value);
    var out := AssemblePredictions(groups.value, refs, scorer, q);
    return Some(out);
  }

  /** out answers the request for this set of sources. */
  ghost predicate IsPredictionOf(out: seq<Prediction>, q: PredictionRequest, sources: set<Source>, scorer: Scorer) {
    exists refs :: AreMaxima(refs, AllEvidence(GroupsOf(sources)))
                   && IsTop(out, Predict(GroupsOf(sources), refs, scorer, q.horizon), Limit(q))
  }

  lemma GroupsHoldActive(sources: set<Source>)
    ensures AllEvidence(GroupsOf(sources)) == set s | s in sources && s.active
  {
    forall s | s in sources && s.active ensures s in AllEvidence(GroupsOf(sources)) {
      assert s.contextKey in ActiveKeys(sources) && s in GroupsOf(sources)[s.contextKey];
    }
  }

  /** The prediction for a key: the active sources that bear it, scored. */
  function PredictionFor(key: string, sources: set<Source>, refs: References, scorer: Scorer): Prediction {
    var evidence := set s | s in sources && s.active && s.contextKey == key;
    Prediction(key, evidence, scorer(key, evidence, refs))
  }

  predicate IsAsked(q: PredictionRequest, x: Prediction) { q.horizon == None || q.horizon == Some(x.score.horizon) }

  lemma PredictedKeys(q: PredictionRequest, sources: set<Source>, refs: References, scorer: Scorer, x: Prediction)
    ensures x in Predict(GroupsOf(sources), refs, scorer, q.horizon) <==>
              && IsAsked(q, x) && x == PredictionFor(x.contextKey, sources, refs, scorer)
              && exists s :: s in sources && s.active && s.contextKey == x.contextKey
  {
    assert GroupsOf(sources).Keys == set s | s in sources && s.active :: s.contextKey;
    if x.contextKey in GroupsOf(sources) {
      assert GroupsOf(sources)[x.contextKey] == set s | s in sources && s.active && s.contextKey == x.contextKey;
    }
  }

  /** What an answer consists of: every prediction scores the active sources of its key against the
      latest sequences of all active sources; they are in order; and a key of the asked horizon is left
      out only when the limit is reached by predictions that come before it. */
  lemma AnswerIsBest(out: seq<Prediction>, q: PredictionRequest, sources: set<Source>, scorer: Scorer)
    returns (refs: References)
    requires IsPredictionOf(out, q, sources, scorer)
    ensures AreMaxima(refs, set s | s in sources && s.active)
    ensures |out| <= q.limit && |out| <= 64
    ensures forall p :: p in out ==>
              && IsAsked(q, p) && p == PredictionFor(p.contextKey, sources, refs, scorer)
              && exists s :: s in sources && s.active && s.contextKey == p.contextKey
    ensures forall i, j :: 0 <= i < j < |out| ==> Precedes(out[i], out[j])
    ensures forall s :: s in sources && s.active ==>
              var x := PredictionFor(s.contextKey, sources, refs, scorer);
              IsAsked(q, x) && x !in out ==> (|out| == q.limit || |out| == 64) && forall p :: p in out ==> Precedes(p, x)
  {
    var groups := GroupsOf(sources);
    refs :| AreMaxima(refs, AllEvidence(groups)) && IsTop(out, Predict(groups, refs, scorer, q.horizon), Limit(q));
    GroupsHoldActive(sources);
    var all := Predict(groups, refs, scorer, q.horizon);
    PredictionsDiffer(groups, refs, scorer, q.horizon);
    TopIsBest(out, all, Limit(q));
    forall p | p in out
      ensures IsAsked(q, p) && p == PredictionFor(p.contextKey, sources, refs, scorer)
      ensures exists s :: s in sources && s.active && s.contextKey == p.contextKey
    {
      PredictedKeys(q, sources, refs, scorer, p);
    }
    forall s | s in sources && s.active && IsAsked(q, PredictionFor(s.contextKey, sources, refs, scorer))
      ensures PredictionFor(s.contextKey, sources, refs, scorer) in all
    {
      PredictedKeys(q, sources, refs, scorer, PredictionFor(s.contextKey, sources, refs, scorer));
    }
    LeftOut(out, all, Limit(q));
  }

  lemma LeftOut(out: seq<Prediction>, all: set<Prediction>, limit: nat)
    requires |out| == (if |all| < limit then |all| else limit) && forall p :: p in out ==> p in all
    requires forall i, j :: 0 <= i < j < |out| ==> Precedes(out[i], out[j])
    ensures forall x :: x in all && x !in out ==> |out| == limit
  {
    if |all| < limit {
      forall i, j | 0 <= i < j < |out| ensures out[i] != out[j] { NotBeforeItself(out[i]); }
      var kept := set p | p in out;
      ListSize(out);
      EqualBySize(kept, all);
    }
  }

  lemma NotBeforeItself(p: Prediction)
    ensures !Precedes(p, p)
  {
    Orders.Trichotomy(p.contextKey, p.contextKey);
  }

  lemma MaximaAreUnique(refs: References, refs': References, sources: set<Source>)
    requires AreMaxima(refs, sources) && AreMaxima(refs', sources)
    ensures refs == refs'
  {
    forall d | d in refs ensures d in refs' && refs'[d] >= refs[d] {
      var s :| s in sources && SequenceDomain(s) == d && s.sequence == refs[d];
    }
    forall d | d in refs' ensures d in refs && refs[d] >= refs'[d] {
      var s :| s in sources && SequenceDomain(s) == d && s.sequence == refs'[d];
    }
  }

  /** There is one first part of the sorted predictions. */
  lemma TopIsUnique(out: seq<Prediction>, out': seq<Prediction>, all: set<Prediction>, limit: nat)
    requires KeysIdentify(all, PredictionKey) && IsTop(out, all, limit) && IsTop(out', all, limit)
    ensures out == out'
  {
    var full :| Lists(full, all, PredictionKey) && out == full[..if |full| < limit then |full| else limit];
    var full' :| Lists(full', all, PredictionKey) && out' == full'[..if |full'| < limit then |full'| else limit];
    ListsIsUnique(full, full', all, PredictionKey);
  }

  lemma SameReferencesSameAnswer(out: seq<Prediction>, out': seq<Prediction>, groups: Groups, refs: References,
                                 refs': References, scorer: Scorer, q: PredictionRequest)
    requires AreMaxima(refs, AllEvidence(groups)) && AreMaxima(refs', AllEvidence(groups))
    requires IsTop(out, Predict(groups, refs, scorer, q.horizon), Limit(q))
    requires IsTop(out', Predict(groups, refs', scorer, q.horizon), Limit(q))
    ensures out == out'
  {
    MaximaAreUnique(refs, refs', AllEvidence(groups));
    PredictionsDiffer(groups, refs, scorer, q.horizon);
    TopIsUnique(out, out', Predict(groups, refs, scorer, q.horizon), Limit(q));
  }

  /** The answer depends on the set of sources only: permuting or repeating them changes nothing. */
  lemma PredictionIgnoresOrder(q: PredictionRequest, sources: seq<Source>, permuted: seq<Source>, scorer: Scorer,
                               out: seq<Prediction>, out': seq<Prediction>)
    requires Elements(sources) == Elements(permuted)
    requires IsPredictionOf(out, q, Elements(sources), scorer)
    requires IsPredictionOf(out', q, Elements(permuted), scorer)
    ensures out == out'
  {
    AnswerIsUnique(q, Elements(sources), scorer, out, out');
  }

  lemma AnswerIsUnique(q: PredictionRequest, sources: set<Source>, scorer: Scorer,
                       out: seq<Prediction>, out': seq<Prediction>)
    requires IsPredictionOf(out, q, sources, scorer) && IsPredictionOf(out', q, sources, scorer)
    ensures out == out'
  {
    var groups := GroupsOf(sources);
    var refs :| AreMaxima(refs, AllEvidence(groups)) && IsTop(out, Predict(groups, refs, scorer, q.horizon), Limit(q));
    var refs' :| AreMaxima(refs', AllEvidence(groups)) && IsTop(out', Predict(groups, refs', scorer, q.horizon), Limit(q));
    SameReferencesSameAnswer(out, out', groups, refs, refs', scorer, q);
  }
}
