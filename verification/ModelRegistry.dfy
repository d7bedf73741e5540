/** The catalogue of model capability records: one record for each exact identity, exact lookup, and
    discovery of every compatible record. Compatibility itself is a parameter. */
module ModelRegistry {
  import opened IntelligenceModels
  import opened Keys
  import opened Sequences

  datatype ModelModality = TextData | ImageData | AudioData | VideoData | Embedding | Structured

  datatype ReasoningCapability = General | MultiStep | Mathematical | CodeReasoning | Planning | LongContext

  datatype Identity = Identity(provider: string, modelId: string, family: string, revision: string)

  /** `facts` stands for everything a record declares besides its identity. */
  datatype Record = Record(identity: Identity, facts: string)

  datatype Requirements = Requirements(
    inputs: set<ModelModality>, outputs: set<ModelModality>, reasoning: set<ReasoningCapability>,
    toolUse: bool, retrieval: bool, codeGeneration: bool, codeUnderstanding: bool, structuredArguments: bool,
    resultConsumption: bool, jsonOutput: bool, schemaOutput: bool, streaming: bool,
    minimumContext: Option<nat>, minimumOutput: Option<nat>, statuses: Option<set<string>>)

  type Compatibility = (Record, Requirements) -> bool

  function IdentityKey(r: Record): Key {
    [Str(r.identity.provider), Str(r.identity.modelId), Str(r.identity.family), Str(r.identity.revision)]
  }

  lemma IdentityKeyInjective(a: Record, b: Record)
    ensures IdentityKey(a) == IdentityKey(b) <==> a.identity == b.identity
  {
    if IdentityKey(a) == IdentityKey(b) {
      assert forall k {:trigger IdentityKey(a)[k]} :: 0 <= k < 4 ==> IdentityKey(a)[k] == IdentityKey(b)[k];
      assert IdentityKey(a)[0] == Str(a.identity.provider) && IdentityKey(a)[1] == Str(a.identity.modelId);
      assert IdentityKey(a)[2] == Str(a.identity.family) && IdentityKey(a)[3] == Str(a.identity.revision);
    }
  }

  /** What normalisation establishes: exact identities are unique and in order. */
  ghost predicate IsRegistry(records: seq<Record>) { Ascends(records, IdentityKey) }

  ghost predicate Conflict(a: Record, b: Record) { a.identity == b.identity && a != b }

  ghost predicate ByIdentity(m: map<Identity, Record>, seen: seq<Record>) {
    && (forall r :: r in seen ==> r.identity in m && m[r.identity] == r)
    && (forall d :: d in m ==> m[d] in seen && m[d].identity == d)
  }

  /** The registry constructor: it raises exactly when two records conflict, and otherwise holds the
      same records, each once, in identity order. */
  method NormalizeRecords(records: seq<Record>) returns (r: Option<seq<Record>>)
    ensures r.None? <==> exists a, b :: a in records && b in records && Conflict(a, b)
    ensures r.Some? ==> IsRegistry(r.value) && forall x :: x in r.value <==> x in records
  {
    var byIdentity: map<Identity, Record> := map[];
    for i := 0 to |records|
      invariant ByIdentity(byIdentity, records[..i])
    {
      var record := records[i];
      assert records[..i+1] == records[..i] + [record];
      if record.identity in byIdentity && byIdentity[record.identity] != record {
        assert Conflict(byIdentity[record.identity], record);
        return None;
      }
      byIdentity := byIdentity[record.identity := record];
    }
    assert records[..|records|] == records;
    var distinct := set d | d in byIdentity :: byIdentity[d];
    assert forall x :: x in distinct <==> x in records;
    var sorted := SortSet(distinct, IdentityKey);
    ListsElements(sorted, distinct, IdentityKey);
    SortedDistinctAscends(sorted, distinct);
    return Some(sorted);
  }

  lemma SortedDistinctAscends(q: seq<Record>, s: set<Record>)
    requires Lists(q, s, IdentityKey) && forall a, b :: a in s && b in s && a.identity == b.identity ==> a == b
    ensures Ascends(q, IdentityKey)
  {
    forall a, b | a in s && b in s && IdentityKey(a) == IdentityKey(b) ensures a == b {
      IdentityKeyInjective(a, b);
    }
    ListsAscend(q, s, IdentityKey);
  }

  lemma RegistryIdentitiesUnique(records: seq<Record>, a: Record, b: Record)
    requires IsRegistry(records) && a in records && b in records && a.identity == b.identity
    ensures a == b
  {
    var i :| 0 <= i < |records| && records[i] == a;
    var j :| 0 <= j < |records| && records[j] == b;
    IdentityKeyInjective(a, b);
    Trichotomy(IdentityKey(a), IdentityKey(b));
  }

  /** Exact lookup: the record of the identity, if the registry has one. */
  method Lookup(records: seq<Record>, identity: Identity) returns (r: Option<Record>)
    requires IsRegistry(records)
    ensures r.Some? ==> r.value in records && r.value.identity == identity
    ensures r.None? ==> forall x :: x in records ==> x.identity != identity
  {
    for i := 0 to |records|
      invariant forall k :: 0 <= k < i ==> records[k].identity != identity
    {
      if records[i].identity == identity {
        return Some(records[i]);
      }
    }
    return None;
  }

  // ----- filtering keeps the order

  lemma {:induction false} KeptAscends<T(!new)>(s: seq<T>, p: T -> bool, key: T -> Key)
    requires Ascends(s, key)
    ensures Ascends(Kept(s, p), key)
  {
    if s != [] {
      var init := s[..|s|-1];
      KeptAscends(init, p, key);
      KeptStep(s, |s| - 1, p);
      assert s[..|s|] == s;
      forall x | x in Kept(init, p) ensures Below(key(x), key(s[|s|-1])) {
        assert x in init;
        var k :| 0 <= k < |init| && init[k] == x;
        assert s[k] == x;
      }
    }
  }

  function Compatible(records: seq<Record>, q: Requirements, compatible: Compatibility): seq<Record> {
    Kept(records, r => compatible(r, q))
  }

  /** Discovery returns every compatible record of the registry and no other, in identity order, so
      that its uniqueness check never raises. */
  method DiscoverCapabilities(records: seq<Record>, q: Requirements, compatible: Compatibility) returns (found: seq<Record>)
    requires IsRegistry(records)
    ensures found == Compatible(records, q, compatible)
    ensures forall r :: r in found <==> r in records && compatible(r, q)
    ensures IsRegistry(found)
  {
    found := [];
    var p := (r: Record) => compatible(r, q);
    for i := 0 to |records|
      invariant found == Kept(records[..i], p)
    {
      KeptStep(records, i, p);
      if compatible(records[i], q) {
        found := found + [records[i]];
      }
    }
    assert records[..|records|] == records;
    KeptAscends(records, p, IdentityKey);
  }
}
