/** Bounded generation: enumerate, cap, validate, and report. */
module CompositionGeneration {
  import opened IntelligenceModels
  import opened CompositionPatterns
  import opened CompositionBindings
  import opened CompositionInstantiation
  import opened CompositionDrafts
  import opened CompositionEnumeration
  import opened CompositionValidation
  import opened CompositionAgreement
  import opened CompositionVerdicts
  import opened ModelRegistry
  import CompositionRuns

  datatype Policy = Policy(maxNodes: nat, maxCandidates: nat)

  datatype Rejection = NodeLimit | Invalid(issue: Issue)

  /** A candidate is valid when it has no rejection reason. */
  datatype Candidate = Candidate(draft: Draft, rejections: set<Rejection>)

  datatype Metadata = Metadata(
    maxNodes: nat, maxCandidates: nat, valid: nat, rejected: nat, complete: bool, truncated: bool,
    hasReason: bool, lowerBound: nat)

  datatype Status = Ready | NotApplicable | Fail

  /** `lacking` is the one issue a result can carry: composition was required and nothing was found. */
  datatype Result = Result(
    status: Status, valid: seq<Candidate>, rejected: seq<Candidate>, metadata: Metadata, lacking: bool)

  // ----- the consistency checks of the contracts

  predicate MetadataIsConsistent(m: Metadata) {
    && m.valid + m.rejected <= m.maxCandidates
    && if m.truncated then !m.complete && m.hasReason && m.lowerBound > m.maxCandidates
       else m.complete && !m.hasReason && m.lowerBound == m.valid + m.rejected
  }

  predicate DistinctIds(s: seq<Candidate>) {
    forall i, j :: 0 <= i < j < |s| ==> s[i].draft.id != s[j].draft.id
  }

  predicate Apart(a: seq<Candidate>, b: seq<Candidate>) {
    forall x, y :: x in a && y in b ==> x.draft.id != y.draft.id
  }

  predicate ResultIsConsistent(r: Result) {
    && (forall c :: c in r.valid ==> c.rejections == {})
    && (forall c :: c in r.rejected ==> c.rejections != {})
    && DistinctIds(r.valid) && DistinctIds(r.rejected) && Apart(r.valid, r.rejected)
    && r.metadata.valid == |r.valid| && r.metadata.rejected == |r.rejected|
    && match r.status
       case Ready => r.valid != []
       case NotApplicable => r.valid == [] && r.rejected == [] && !r.lacking
       case Fail => r.valid == [] && (r.rejected != [] || r.lacking)
  }

  /** The contract of the metadata, check by check. */
  method CheckMetadata(m: Metadata) returns (ok: bool)
    ensures ok <==> MetadataIsConsistent(m)
  {
    var emitted := m.valid + m.rejected;
    if emitted > m.maxCandidates {
      return false;
    }
    if m.truncated {
      if m.complete {
        return false;
      }
      if !m.hasReason {
        return false;
      }
      if m.lowerBound <= m.maxCandidates {
        return false;
      }
    } else {
      if !m.complete {
        return false;
      }
      if m.hasReason {
        return false;
      }
      if m.lowerBound != emitted {
        return false;
      }
    }
    return true;
  }

  /** No two candidates of the list share an id. */
  method CheckIds(candidates: seq<Candidate>) returns (ok: bool)
    ensures ok <==> DistinctIds(candidates)
  {
    var seen: set<CompositionId> := {};
    for i := 0 to |candidates|
      invariant seen == set k | 0 <= k < i :: candidates[k].draft.id
      invariant forall j, k :: 0 <= j < k < i ==> candidates[j].draft.id != candidates[k].draft.id
    {
      var id := candidates[i].draft.id;
      if id in seen {
        var k :| 0 <= k < i && candidates[k].draft.id == id;
        return false;
      }
      seen := seen + {id};
    }
    return true;
  }

  lemma IdsAcrossTheResult(a: seq<Candidate>, b: seq<Candidate>)
    ensures DistinctIds(a + b) <==> DistinctIds(a) && DistinctIds(b) && Apart(a, b)
  {
    var all := a + b;
    if DistinctIds(all) {
      forall i, j | 0 <= i < j < |a| ensures a[i].draft.id != a[j].draft.id {
        assert all[i] == a[i] && all[j] == a[j];
      }
      forall i, j | 0 <= i < j < |b| ensures b[i].draft.id != b[j].draft.id {
        assert all[|a| + i] == b[i] && all[|a| + j] == b[j];
      }
      forall x, y | x in a && y in b ensures x.draft.id != y.draft.id {
        var i :| 0 <= i < |a| && a[i] == x;
        var j :| 0 <= j < |b| && b[j] == y;
        assert all[i] == x && all[|a| + j] == y;
      }
    }
  }

  /** The contract of the result, check by check. */
  method CheckResult(r: Result) returns (ok: bool)
    ensures ok <==> ResultIsConsistent(r)
  {
    if exists c :: c in r.valid && c.rejections != {} {
      return false;
    }
    if exists c :: c in r.rejected && c.rejections == {} {
      return false;
    }
    IdsAcrossTheResult(r.valid, r.rejected);
    var unique := CheckIds(r.valid + r.rejected);
    if !unique {
      return false;
    }
    if r.metadata.valid != |r.valid| {
      return false;
    }
    if r.metadata.rejected != |r.rejected| {
      return false;
    }
    if r.status == Ready {
      return |r.valid| > 0;
    } else if r.status == NotApplicable {
      return |r.valid| == 0 && |r.rejected| == 0 && !r.lacking;
    } else {
      return |r.valid| == 0 && (|r.rejected| > 0 || r.lacking);
    }
  }

  // ----- enumeration up to the cap

  function Min(a: nat, b: nat): nat { if a < b then a else b }

  lemma SignatureIsNew(drafts: seq<Draft>, i: nat)
    requires AllDiffer(drafts) && i < |drafts|
    ensures SignatureOf(drafts[i]) !in set k | 0 <= k < i :: SignatureOf(drafts[k])
  {
    forall k | 0 <= k < i ensures SignatureOf(drafts[k]) != SignatureOf(drafts[i]) {
      assert !Alike(drafts[k], drafts[i]);
    }
  }

  /** The deduplicating loop. Merging is never reached, and truncation is reported exactly when there
      are more drafts than the cap admits. */
  method TakeUnique(drafts: seq<Draft>, maxCandidates: nat) returns (unique: seq<Draft>, truncated: bool)
    requires AllDiffer(drafts)
    ensures unique == drafts[..Min(|drafts|, maxCandidates)]
    ensures truncated <==> |drafts| > maxCandidates
  {
    unique, truncated := [], false;
    var signatures: set<Signature> := {};
    for i := 0 to |drafts|
      invariant i <= maxCandidates && unique == drafts[..i]
      invariant signatures == set k | 0 <= k < i :: SignatureOf(drafts[k])
      invariant !truncated
    {
      SignatureIsNew(drafts, i);
      var signature := SignatureOf(drafts[i]);
      if signature in signatures {
        assert false;
      } else if |unique| == maxCandidates {
        truncated := true;
        break;
      } else {
        signatures := signatures + {signature};
        unique := unique + [drafts[i]];
      }
    }
  }

  // ----- validation of the drafts taken

  ghost predicate Accepts(q: Request, compatible: Compatibility, policy: Policy, d: Draft) {
    |d.stages| <= policy.maxNodes && Passes(d, ContextFor(q, d), compatible, PatternOf(d.topology))
  }

  /** A verdict on one draft. */
  method Judge(q: Request, compatible: Compatibility, policy: Policy, d: Draft) returns (c: Candidate)
    requires IsRegistry(q.registry)
    ensures c.draft == d && (c.rejections == {} <==> Accepts(q, compatible, policy, d))
    ensures |d.stages| > policy.maxNodes ==> c.rejections == {NodeLimit}
    ensures |d.stages| <= policy.maxNodes ==> forall i :: Invalid(i) in c.rejections <==>
              Raises(d, ContextFor(q, d), compatible, PatternOf(d.topology), i)
  {
    if |d.stages| > policy.maxNodes {
      return Candidate(d, {NodeLimit});
    }
    var issues := ValidateCompositionCandidate(d, ContextFor(q, d), compatible, PatternOf(d.topology));
    var rejections := set i | i in issues :: Invalid(i);
    if issues != {} {
      var i :| i in issues;
      assert Invalid(i) in rejections;
    }
    return Candidate(d, rejections);
  }

  /** Verdicts for the first drafts: sorted into valid and rejected, none lost, none twice. */
  ghost predicate Judged(q: Request, compatible: Compatibility, policy: Policy, drafts: seq<Draft>,
                         valid: seq<Candidate>, rejected: seq<Candidate>) {
    && |valid| + |rejected| == |drafts|
    && (forall c :: c in valid ==> c.rejections == {} && c.draft in drafts && Accepts(q, compatible, policy, c.draft))
    && (forall c :: c in rejected ==> c.rejections != {} && c.draft in drafts && !Accepts(q, compatible, policy, c.draft))
    && (forall d :: d in drafts ==> exists c :: (c in valid || c in rejected) && c.draft == d)
    && DistinctIds(valid) && DistinctIds(rejected) && Apart(valid, rejected)
  }

  lemma IdIsNew(drafts: seq<Draft>, i: nat, d: Draft)
    requires AllDiffer(drafts) && i < |drafts| && d in drafts[..i]
    ensures d.id != drafts[i].id
  {
    var k :| 0 <= k < i && drafts[k] == d;
    assert !Alike(drafts[k], drafts[i]);
  }

  lemma JudgedGrows(q: Request, compatible: Compatibility, policy: Policy, drafts: seq<Draft>, d: Draft,
                    valid: seq<Candidate>, rejected: seq<Candidate>, c: Candidate)
    requires Judged(q, compatible, policy, drafts, valid, rejected)
    requires c.draft == d && (c.rejections == {} <==> Accepts(q, compatible, policy, d))
    requires forall x :: x in drafts ==> x.id != d.id
    ensures c.rejections == {} ==> Judged(q, compatible, policy, drafts + [d], valid + [c], rejected)
    ensures c.rejections != {} ==> Judged(q, compatible, policy, drafts + [d], valid, rejected + [c])
  {
    assert c in valid + [c] && c in rejected + [c];
    forall x | x in drafts + [d]
      ensures exists k :: (k in valid + [c] || k in rejected) && k.draft == x
      ensures exists k :: (k in valid || k in rejected + [c]) && k.draft == x
    {
      if x in drafts {
        var k :| (k in valid || k in rejected) && k.draft == x;
        assert k in valid + [c] || k in rejected;
        assert k in valid || k in rejected + [c];
      }
    }
    JudgedStaysDistinct(valid, rejected, c);
    JudgedStaysDistinct(rejected, valid, c);
  }

  lemma JudgedStaysDistinct(a: seq<Candidate>, b: seq<Candidate>, c: Candidate)
    requires DistinctIds(a) && Apart(a, b)
    requires forall x :: x in a || x in b ==> x.draft.id != c.draft.id
    ensures DistinctIds(a + [c]) && Apart(a + [c], b) && Apart(b, a + [c])
  {}

  method JudgeAll(q: Request, compatible: Compatibility, policy: Policy, drafts: seq<Draft>)
    returns (valid: seq<Candidate>, rejected: seq<Candidate>)
    requires IsRegistry(q.registry) && AllDiffer(drafts)
    ensures Judged(q, compatible, policy, drafts, valid, rejected)
  {
    valid, rejected := [], [];
    for i := 0 to |drafts|
      invariant Judged(q, compatible, policy, drafts[..i], valid, rejected)
    {
      forall d | d in drafts[..i] ensures d.id != drafts[i].id { IdIsNew(drafts, i, d); }
      assert drafts[..i+1] == drafts[..i] + [drafts[i]];
      var c := Judge(q, compatible, policy, drafts[i]);
      JudgedGrows(q, compatible, policy, drafts[..i], drafts[i], valid, rejected, c);
      if c.rejections == {} {
        valid := valid + [c];
      } else {
        rejected := rejected + [c];
      }
    }
    assert drafts[..|drafts|] == drafts;
  }

  // ----- the result

  /** The whole generator. Its drafts are the first of the enumeration, as many as the cap admits; each
      is reported once, as valid or as rejected; and neither consistency check of the result contracts
      can raise. */
  method GenerateCompositions(q: Request, compatible: Compatibility, policy: Policy) returns (r: Result)
    requires WellFormedRequest(q)
    ensures MetadataIsConsistent(r.metadata) && ResultIsConsistent(r)
    ensures r.metadata.maxNodes == policy.maxNodes && r.metadata.maxCandidates == policy.maxCandidates
    ensures r.metadata.truncated <==> |Enumeration(q, compatible)| > policy.maxCandidates
    ensures |r.valid| + |r.rejected| == Min(|Enumeration(q, compatible)|, policy.maxCandidates)
    ensures Judged(q, compatible, policy, Taken(q, compatible, policy), r.valid, r.rejected)
    ensures r.status == Ready <==> r.valid != []
    ensures r.status == NotApplicable <==> r.valid == [] && r.rejected == [] && !q.required
    ensures r.lacking <==> r.valid == [] && r.rejected == [] && q.required
  {
    CertifiedPatternsAreCatalogue();
    var drafts, problems := CompositionRuns.Instantiate(q, compatible, CertifiedPatterns());
    AllDraftsDiffer(q, compatible, CertifiedPatterns());
    var unique, truncated := TakeUnique(drafts, policy.maxCandidates);
    var valid, rejected := JudgeAll(q, compatible, policy, unique);
    r := Report(q.required, policy, truncated, valid, rejected);
    var metadataFits := CheckMetadata(r.metadata);
    var resultFits := CheckResult(r);
    assert metadataFits && resultFits;
  }

  method Report(required: bool, policy: Policy, truncated: bool, valid: seq<Candidate>, rejected: seq<Candidate>)
    returns (r: Result)
    ensures r.valid == valid && r.rejected == rejected
    ensures r.metadata ==
              Metadata(policy.maxNodes, policy.maxCandidates, |valid|, |rejected|, !truncated, truncated, truncated,
                       if truncated then policy.maxCandidates + 1 else |valid| + |rejected|)
    ensures r.status == if valid != [] then Ready else if rejected == [] && !required then NotApplicable else Fail
    ensures r.lacking <==> valid == [] && rejected == [] && required
  {
    var emitted := |valid| + |rejected|;
    var metadata := Metadata(policy.maxNodes, policy.maxCandidates, |valid|, |rejected|, !truncated, truncated, truncated,
                             if truncated then policy.maxCandidates + 1 else emitted);
    var status, lacking;
    if valid != [] {
      status, lacking := Ready, false;
    } else if rejected == [] && !required {
      status, lacking := NotApplicable, false;
    } else {
      status, lacking := Fail, rejected == [];
    }
    return Result(status, valid, rejected, metadata, lacking);
  }

  /** All drafts of the request. */
  ghost function Enumeration(q: Request, compatible: Compatibility): seq<Draft>
    requires WellFormedRequest(q)
  {
    CertifiedPatternsAreCatalogue();
    DraftsOver(q, compatible, CertifiedPatterns())
  }

  ghost function Taken(q: Request, compatible: Compatibility, policy: Policy): seq<Draft>
    requires WellFormedRequest(q)
  {
    Enumeration(q, compatible)[..Min(|Enumeration(q, compatible)|, policy.maxCandidates)]
  }

  // ----- end to end

  /** What a draft of the enumeration must meet to be emitted as valid. */
  lemma AcceptedExactly(q: Request, compatible: Compatibility, policy: Policy, p: Pattern, b: Binding, d: Draft)
    requires WellFormedRequest(q) && p == PatternOf(p.topology) && IsDraftOf(q, compatible, p, b, d)
    ensures Accepts(q, compatible, policy, d) <==>
              |p.slots| <= policy.maxNodes && HandoffsFit(p, NeedsOf(q, p)) && EvidenceFits(q, p)
  {
    NeedsCover(q, p);
    DraftPassesExactly(q, compatible, p, NeedsOf(q, p), b);
    DraftIsPath(q, p, NeedsOf(q, p), b);
    PathDraftGraph(d, Stages(p.slots));
  }

  /** A request with derived requirements only, whose workload cannot carry text between stages: every
      valid candidate is a single model. */
  lemma WithoutTextOnlySingle(q: Request, compatible: Compatibility, policy: Policy, d: Draft)
    requires WellFormedRequest(q) && q.explicit == map[] && !CarriesText(q)
    requires d in Enumeration(q, compatible) && Accepts(q, compatible, policy, d)
    ensures d.topology == Single
  {
    CertifiedPatternsAreCatalogue();
    AllDraftsAreExact(q, compatible, CertifiedPatterns(), d);
    var p, b :| p in CertifiedPatterns() && IsDraftOf(q, compatible, p, b, d);
    AcceptedExactly(q, compatible, policy, p, b, d);
    FirstIsPrimary(p.topology);
    DerivedHandoffsFitExactly(q, p);
  }

  lemma FirstIsPrimary(t: Topology)
    ensures PatternOf(t).slots != [] && PatternOf(t).slots[0].role == Primary
    ensures |PatternOf(t).slots| == 1 <==> t == Single
  {
    CertifiedSlots(t);
    assert Roles(SlotsOf(t))[0] == SlotsOf(t)[0].role;
  }

  /** Such a request, when composition is required, gets no valid candidate at all. */
  lemma WithoutTextCompositionFails(q: Request, compatible: Compatibility, policy: Policy, d: Draft)
    requires WellFormedRequest(q) && q.explicit == map[] && !CarriesText(q) && q.required
    requires d in Enumeration(q, compatible)
    ensures !Accepts(q, compatible, policy, d)
  {
    CertifiedPatternsAreCatalogue();
    AllDraftsAreExact(q, compatible, CertifiedPatterns(), d);
    var p, b :| p in CertifiedPatterns() && IsDraftOf(q, compatible, p, b, d);
    assert p.topology != Single;
    if Accepts(q, compatible, policy, d) { WithoutTextOnlySingle(q, compatible, policy, d); }
  }
}
