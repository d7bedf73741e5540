/** The global context store: an immutable value that registration and namespace closure replace. */
module ContextStore {
  import Orders
  import opened IntelligenceModels
  import opened Keys
  import opened Sequences
  import opened Texts
  import opened Sets

  const MAX_RECORDS_PER_NAMESPACE: nat := 4096

  datatype Namespace = Namespace(kind: string, id: string)

  datatype Record = Record(namespace: Namespace, id: string, sequence: int, content: string)

  datatype Closure = Closure(namespace: Namespace, closed: bool, reason: string, sequence: int)

  datatype Store = Store(records: seq<Record>, closures: seq<Closure>)

  const EMPTY := Store([], [])

  function RecordKey(r: Record): Key {
    [Str(r.namespace.kind), Str(r.namespace.id), Num(r.sequence as real), Str(r.id)]
  }

  function ClosureKey(c: Closure): Key {
    [Str(c.namespace.kind), Str(c.namespace.id), Num(c.sequence as real), Str(c.reason)]
  }

  function ById(records: seq<Record>): (m: map<string, Record>)
    ensures forall id :: id in m ==> m[id].id == id && m[id] in records
    ensures forall r :: r in records ==> r.id in m
  {
    if records == [] then map[] else ById(records[..|records|-1])[records[|records|-1].id := records[|records|-1]]
  }

  function ByNamespace(closures: seq<Closure>): (m: map<Namespace, Closure>)
    ensures forall n :: n in m ==> m[n].namespace == n && m[n] in closures
    ensures forall c :: c in closures ==> c.namespace in m
  {
    if closures == [] then map[]
    else ByNamespace(closures[..|closures|-1])[closures[|closures|-1].namespace := closures[|closures|-1]]
  }

  predicate IsClosed(s: Store, n: Namespace) {
    exists c :: c in s.closures && c.namespace == n
  }

  function InNamespace(m: map<string, Record>, n: Namespace): set<string> {
    set id | id in m && m[id].namespace == n
  }

  // ----- registration

  function AfterRegistration(s: Store, r: Record): map<string, Record> { ById(s.records)[r.id := r] }

  /** The registration raises. */
  predicate RefusesRecord(s: Store, r: Record, authorized: Namespace) {
    || !Nonblank(authorized.id)
    || r.namespace != authorized
    || IsClosed(s, authorized)
    || (r.id in ById(s.records) && ById(s.records)[r.id] != r)
    || |InNamespace(AfterRegistration(s, r), r.namespace)| > MAX_RECORDS_PER_NAMESPACE
  }

  /** s' is what a registration that does not raise returns. */
  ghost predicate Registers(s: Store, r: Record, authorized: Namespace, s': Store) {
    && !RefusesRecord(s, r, authorized)
    && Lists(s'.records, AfterRegistration(s, r).Values, RecordKey)
    && s'.closures == s.closures
  }

  method Register(s: Store, r: Record, authorized: Namespace) returns (result: Option<Store>)
    ensures result.None? <==> RefusesRecord(s, r, authorized)
    ensures result.Some? ==> Registers(s, r, authorized, result.value)
  {
    if !Nonblank(authorized.id) || r.namespace != authorized || IsClosed(s, authorized) {
      return None;
    }
    var existing := ById(s.records);
    if r.id in existing && existing[r.id] != r {
      return None;
    }
    existing := existing[r.id := r];
    if |InNamespace(existing, r.namespace)| > MAX_RECORDS_PER_NAMESPACE {
      return None;
    }
    var records := SortSet(existing.Values, RecordKey);
    return Some(Store(records, s.closures));
  }

  // ----- closing a namespace

  function Proposed(n: Namespace, reason: string, sequence: int): Closure { Closure(n, true, Strip(reason), sequence) }

  predicate RefusesClosure(s: Store, n: Namespace, reason: string, sequence: int) {
    || !Nonblank(n.id) || !Nonblank(reason) || sequence <= 0
    || (n in ByNamespace(s.closures) && ByNamespace(s.closures)[n] != Proposed(n, reason, sequence))
  }

  ghost predicate Closes(s: Store, n: Namespace, reason: string, sequence: int, s': Store) {
    && !RefusesClosure(s, n, reason, sequence)
    && var existing := ByNamespace(s.closures);
       if n in existing then s' == s
       else s'.records == s.records
            && Lists(s'.closures, existing[n := Proposed(n, reason, sequence)].Values, ClosureKey)
  }

  method Close(s: Store, n: Namespace, reason: string, sequence: int) returns (result: Option<Store>)
    ensures result.None? <==> RefusesClosure(s, n, reason, sequence)
    ensures result.Some? ==> Closes(s, n, reason, sequence, result.value)
  {
    if !Nonblank(n.id) || !Nonblank(reason) || sequence <= 0 {
      return None;
    }
    var proposed := Closure(n, true, Strip(reason), sequence);
    var existing := ByNamespace(s.closures);
    if n in existing {
      return if existing[n] == proposed then Some(s) else None;
    }
    existing := existing[n := proposed];
    var closures := SortSet(existing.Values, ClosureKey);
    return Some(Store(s.records, closures));
  }

  // ----- what every operation keeps

  function RecordSet(s: Store): set<Record> { set r | r in s.records }
  function ClosureSet(s: Store): set<Closure> { set c | c in s.closures }

  function RecordsOf(rs: set<Record>, n: Namespace): set<Record> { set r | r in rs && r.namespace == n }
  function ClosuresOf(cs: set<Closure>, n: Namespace): set<Closure> { set c | c in cs && c.namespace == n }

  /** Unique ids, and no namespace over its cap. */
  ghost predicate ValidRecords(rs: set<Record>) {
    && (forall a, b :: a in rs && b in rs && a.id == b.id ==> a == b)
    && (forall n :: |RecordsOf(rs, n)| <= MAX_RECORDS_PER_NAMESPACE)
  }

  predicate Malformed(c: Closure) { !Nonblank(c.namespace.id) || !Nonblank(c.reason) || !c.closed || c.sequence < 1 }

  /** Well-formed closures, at most one a namespace. */
  predicate ValidClosures(cs: set<Closure>) {
    && (forall a, b :: a in cs && b in cs && a.namespace == b.namespace ==> a == b)
    && (forall c :: c in cs ==> !Malformed(c))
  }

  /** Both lists are valid, sorted and free of repetitions. */
  ghost predicate Valid(s: Store) {
    && ValidRecords(RecordSet(s)) && Lists(s.records, RecordSet(s), RecordKey)
    && ValidClosures(ClosureSet(s)) && Lists(s.closures, ClosureSet(s), ClosureKey)
  }

  // ----- the operations, on the sets that the lists hold

  /** No other record has the id. */
  predicate Unconflicted(rs: set<Record>, r: Record) { forall x :: x in rs && x.id == r.id ==> x == r }

  /** A registration that raises nothing. */
  predicate AcceptsRecord(rs: set<Record>, cs: set<Closure>, r: Record, authorized: Namespace) {
    && Nonblank(authorized.id) && r.namespace == authorized && ClosuresOf(cs, authorized) == {}
    && Unconflicted(rs, r)
    && |RecordsOf(rs + {r}, r.namespace)| <= MAX_RECORDS_PER_NAMESPACE
  }

  lemma DictionaryValues(records: seq<Record>, rs: set<Record>)
    requires rs == set r | r in records
    requires forall a, b :: a in rs && b in rs && a.id == b.id ==> a == b
    ensures forall x :: x in rs <==> x.id in ById(records) && ById(records)[x.id] == x
    ensures ById(records).Values == rs
  {
    var m := ById(records);
    forall x | x in rs ensures x.id in m && m[x.id] == x {
      assert m[x.id] in rs;
    }
    assert forall id :: id in m ==> m[id] in rs;
  }

  lemma ValuesAfter(s: Store, r: Record)
    requires ValidRecords(RecordSet(s)) && Unconflicted(RecordSet(s), r)
    ensures AfterRegistration(s, r).Values == RecordSet(s) + {r}
  {
    DictionaryValues(s.records, RecordSet(s));
    var m' := AfterRegistration(s, r);
    forall x ensures x in m'.Values <==> x in RecordSet(s) + {r} {
      if x in RecordSet(s) + {r} { assert m'[x.id] == x; }
    }
  }

  lemma {:induction false} BijectionSize(ids: set<string>, m: map<string, Record>)
    requires ids <= m.Keys && forall id :: id in ids ==> m[id].id == id
    ensures |ids| == |set id | id in ids :: m[id]|
  {
    if ids != {} {
      var id :| id in ids;
      BijectionSize(ids - {id}, m);
      var rest := set j | j in ids - {id} :: m[j];
      assert (set j | j in ids :: m[j]) == rest + {m[id]};
      assert m[id] !in rest;
    }
  }

  /** The records of one namespace, counted through the dictionary or directly. */
  lemma NamespaceCount(m: map<string, Record>, n: Namespace, rs: set<Record>)
    requires rs == m.Values && forall id :: id in m ==> m[id].id == id
    ensures |InNamespace(m, n)| == |RecordsOf(rs, n)|
  {
    BijectionSize(InNamespace(m, n), m);
    assert RecordsOf(rs, n) == set id | id in InNamespace(m, n) :: m[id];
  }

  lemma ClosedBySets(s: Store, n: Namespace)
    ensures IsClosed(s, n) <==> ClosuresOf(ClosureSet(s), n) != {}
  {
    if c :| c in s.closures && c.namespace == n {
      assert c in ClosuresOf(ClosureSet(s), n);
    }
  }

  lemma ConflictBySets(s: Store, r: Record)
    requires ValidRecords(RecordSet(s))
    ensures (r.id !in ById(s.records) || ById(s.records)[r.id] == r) <==> Unconflicted(RecordSet(s), r)
  {
    DictionaryValues(s.records, RecordSet(s));
    if r.id in ById(s.records) { assert ById(s.records)[r.id] in RecordSet(s); }
  }

  lemma RoomBySets(s: Store, r: Record)
    requires ValidRecords(RecordSet(s)) && Unconflicted(RecordSet(s), r)
    ensures AfterRegistration(s, r).Values == RecordSet(s) + {r}
    ensures |InNamespace(AfterRegistration(s, r), r.namespace)| == |RecordsOf(RecordSet(s) + {r}, r.namespace)|
  {
    ValuesAfter(s, r);
    NamespaceCount(AfterRegistration(s, r), r.namespace, RecordSet(s) + {r});
  }

  lemma RegistrationBySets(s: Store, r: Record, authorized: Namespace)
    requires Valid(s)
    ensures RefusesRecord(s, r, authorized) <==> !AcceptsRecord(RecordSet(s), ClosureSet(s), r, authorized)
    ensures !RefusesRecord(s, r, authorized) ==> AfterRegistration(s, r).Values == RecordSet(s) + {r}
  {
    var rs := RecordSet(s);
    ClosedBySets(s, authorized);
    ConflictBySets(s, r);
    if Unconflicted(rs, r) {
      RoomBySets(s, r);
    }
    VerdictsAgree(s, r, authorized, rs, ClosureSet(s));
  }

  lemma VerdictsAgree(s: Store, r: Record, authorized: Namespace, rs: set<Record>, cs: set<Closure>)
    requires IsClosed(s, authorized) <==> ClosuresOf(cs, authorized) != {}
    requires (r.id !in ById(s.records) || ById(s.records)[r.id] == r) <==> Unconflicted(rs, r)
    requires Unconflicted(rs, r) ==>
               |InNamespace(AfterRegistration(s, r), r.namespace)| == |RecordsOf(rs + {r}, r.namespace)|
    ensures RefusesRecord(s, r, authorized) <==> !AcceptsRecord(rs, cs, r, authorized)
  {}

  lemma RecordsStayValid(rs: set<Record>, cs: set<Closure>, r: Record, authorized: Namespace)
    requires ValidRecords(rs) && AcceptsRecord(rs, cs, r, authorized)
    ensures ValidRecords(rs + {r})
  {
    forall n ensures |RecordsOf(rs + {r}, n)| <= MAX_RECORDS_PER_NAMESPACE {
      if n != r.namespace { assert RecordsOf(rs + {r}, n) == RecordsOf(rs, n); }
    }
  }

  lemma RegistrationKeepsValid(s: Store, r: Record, authorized: Namespace, s': Store)
    requires Valid(s) && Registers(s, r, authorized, s')
    ensures Valid(s') && RecordSet(s') == RecordSet(s) + {r}
  {
    RegistrationBySets(s, r, authorized);
    RecordsStayValid(RecordSet(s), ClosureSet(s), r, authorized);
    ListsElements(s'.records, RecordSet(s) + {r}, RecordKey);
    assert RecordSet(s') == RecordSet(s) + {r};
  }

  lemma ClosureValues(s: Store, proposed: Closure)
    requires ValidClosures(ClosureSet(s)) && proposed.namespace !in ByNamespace(s.closures)
    ensures ByNamespace(s.closures)[proposed.namespace := proposed].Values == ClosureSet(s) + {proposed}
  {
    var m := ByNamespace(s.closures);
    var m' := m[proposed.namespace := proposed];
    forall x ensures x in m'.Values <==> x in ClosureSet(s) + {proposed} {
      if x in ClosureSet(s) {
        assert m[x.namespace] in ClosureSet(s);
        assert m'[x.namespace] == x;
      }
      assert m'[proposed.namespace] == proposed;
    }
  }

  lemma ClosuresStayValid(cs: set<Closure>, proposed: Closure)
    requires ValidClosures(cs) && ClosuresOf(cs, proposed.namespace) == {} && !Malformed(proposed)
    ensures ValidClosures(cs + {proposed})
  {
    assert forall c :: c in cs && c.namespace == proposed.namespace ==> c in ClosuresOf(cs, proposed.namespace);
  }

  lemma ProposedIsWellFormed(s: Store, n: Namespace, reason: string, sequence: int)
    requires !RefusesClosure(s, n, reason, sequence)
    ensures !Malformed(Proposed(n, reason, sequence))
  {
    StripIsNonblank(reason);
  }

  lemma NoClosureYet(s: Store, n: Namespace)
    requires n !in ByNamespace(s.closures)
    ensures ClosuresOf(ClosureSet(s), n) == {}
  {
    assert forall c :: c in s.closures ==> c.namespace in ByNamespace(s.closures);
  }

  /** A closing either returns the store as it is or adds the proposed closure to an open namespace. */
  lemma ClosingKeepsValid(s: Store, n: Namespace, reason: string, sequence: int, s': Store)
    requires Valid(s) && Closes(s, n, reason, sequence, s')
    ensures Valid(s') && s'.records == s.records
    ensures s' == s || (ClosuresOf(ClosureSet(s), n) == {}
                        && ClosureSet(s') == ClosureSet(s) + {Proposed(n, reason, sequence)})
  {
    if n !in ByNamespace(s.closures) {
      var proposed := Proposed(n, reason, sequence);
      var all := ClosureSet(s) + {proposed};
      NoClosureYet(s, n);
      ClosureValues(s, proposed);
      ProposedIsWellFormed(s, n, reason, sequence);
      ClosuresStayValid(ClosureSet(s), proposed);
      ListedClosures(s, s', all);
    }
  }

  lemma ListedClosures(s: Store, s': Store, all: set<Closure>)
    requires Valid(s) && s'.records == s.records && Lists(s'.closures, all, ClosureKey) && ValidClosures(all)
    ensures Valid(s') && ClosureSet(s') == all
  {
    ListsElements(s'.closures, all, ClosureKey);
    assert ClosureSet(s') == all;
    assert RecordSet(s') == RecordSet(s);
  }

  // ----- runs

  datatype Operation = RegisterOp(record: Record, authorized: Namespace) | CloseOp(namespace: Namespace, reason: string, sequence: int)

  /** An operation that raises leaves the caller with the store it had. */
  ghost predicate Step(s: Store, op: Operation, s': Store) {
    match op
    case RegisterOp(r, n) => if RefusesRecord(s, r, n) then s' == s else Registers(s, r, n, s')
    case CloseOp(n, reason, k) => if RefusesClosure(s, n, reason, k) then s' == s else Closes(s, n, reason, k, s')
  }

  ghost predicate IsRun(stores: seq<Store>, ops: seq<Operation>) {
    && |stores| == |ops| + 1
    && forall i {:trigger ops[i]} :: 0 <= i < |ops| ==> Step(stores[i], ops[i], stores[i+1])
  }

  /** Nothing is lost or altered, and a closed namespace stands still. */
  ghost predicate Grows(s: Store, s': Store) {
    && RecordSet(s) <= RecordSet(s') && ClosureSet(s) <= ClosureSet(s')
    && forall n :: ClosuresOf(ClosureSet(s), n) != {} ==>
         && RecordsOf(RecordSet(s'), n) == RecordsOf(RecordSet(s), n)
         && ClosuresOf(ClosureSet(s'), n) == ClosuresOf(ClosureSet(s), n)
  }

  lemma RegistrationGrows(s: Store, r: Record, authorized: Namespace, s': Store)
    requires Valid(s) && Registers(s, r, authorized, s')
    ensures Valid(s') && Grows(s, s')
  {
    RegistrationKeepsValid(s, r, authorized, s');
    RegistrationBySets(s, r, authorized);
    forall n | ClosuresOf(ClosureSet(s), n) != {} ensures RecordsOf(RecordSet(s'), n) == RecordsOf(RecordSet(s), n) {
      assert n != r.namespace;
    }
  }

  lemma ClosedStayClosed(cs: set<Closure>, c: Closure)
    requires ClosuresOf(cs, c.namespace) == {}
    ensures forall n :: ClosuresOf(cs, n) != {} ==> ClosuresOf(cs + {c}, n) == ClosuresOf(cs, n)
  {
    forall n | ClosuresOf(cs, n) != {} ensures ClosuresOf(cs + {c}, n) == ClosuresOf(cs, n) {
      assert n != c.namespace;
    }
  }

  lemma ClosingGrows(s: Store, n: Namespace, reason: string, sequence: int, s': Store)
    requires Valid(s) && Closes(s, n, reason, sequence, s')
    ensures Valid(s') && Grows(s, s')
  {
    ClosingKeepsValid(s, n, reason, sequence, s');
    SameRecords(s, s');
    if s' != s {
      ClosedStayClosed(ClosureSet(s), Proposed(n, reason, sequence));
    }
  }

  lemma SameRecords(s: Store, s': Store)
    requires s'.records == s.records
    ensures RecordSet(s') == RecordSet(s)
  {}

  lemma StepGrows(s: Store, op: Operation, s': Store)
    requires Valid(s) && Step(s, op, s')
    ensures Valid(s') && Grows(s, s')
  {
    match op
    case RegisterOp(r, n) => if !RefusesRecord(s, r, n) { RegistrationGrows(s, r, n, s'); }
    case CloseOp(n, reason, k) => if !RefusesClosure(s, n, reason, k) { ClosingGrows(s, n, reason, k, s'); }
  }

  lemma GrowsTransitive(a: Store, b: Store, c: Store)
    requires Grows(a, b) && Grows(b, c)
    ensures Grows(a, c)
  {}

  lemma EmptyIsValid()
    ensures Valid(EMPTY)
  {
    assert RecordSet(EMPTY) == {} && ClosureSet(EMPTY) == {};
    forall n ensures |RecordsOf({}, n)| == 0 {
      assert RecordsOf({}, n) == {};
    }
  }

  /** Over every run from the empty store, whatever succeeds or raises: ids stay unique, records and
      closures sorted, namespaces bounded; no record is ever lost or altered; and once a namespace is
      closed, neither its records nor its closure change again. */
  lemma {:induction false} RunsGrow(stores: seq<Store>, ops: seq<Operation>, i: nat, j: nat)
    requires IsRun(stores, ops) && stores[0] == EMPTY && i <= j < |stores|
    ensures Valid(stores[j]) && Grows(stores[i], stores[j])
    decreases j
  {
    GrowsReflexive(stores[i]);
    if j == 0 {
      EmptyIsValid();
    } else if i < j {
      RunsGrow(stores, ops, i, j - 1);
      RunsGrowStep(stores[i], stores[j-1], ops[j-1], stores[j]);
    } else {
      RunsGrow(stores, ops, j - 1, j - 1);
      StepGrows(stores[j-1], ops[j-1], stores[j]);
    }
  }

  /** In every run, a record or closure once stored stays as it is, and once a namespace is closed,
      whatever is found in it later was there before. */
  lemma NothingIsLost(stores: seq<Store>, ops: seq<Operation>, i: nat, j: nat)
    requires IsRun(stores, ops) && stores[0] == EMPTY && i <= j < |stores|
    ensures forall r :: r in stores[i].records ==> r in stores[j].records
    ensures forall c :: c in stores[i].closures ==> c in stores[j].closures
    ensures forall c, r :: c in stores[i].closures && r in stores[j].records && r.namespace == c.namespace ==>
              r in stores[i].records
    ensures forall c, d :: c in stores[i].closures && d in stores[j].closures && d.namespace == c.namespace ==> d == c
  {
    RunsGrow(stores, ops, i, j);
    forall r | r in stores[i].records ensures r in stores[j].records { assert r in RecordSet(stores[i]); }
    forall c | c in stores[i].closures ensures c in stores[j].closures { assert c in ClosureSet(stores[i]); }
    forall c, r | c in stores[i].closures && r in stores[j].records && r.namespace == c.namespace
      ensures r in stores[i].records
    {
      assert c in ClosuresOf(ClosureSet(stores[i]), c.namespace);
      assert r in RecordsOf(RecordSet(stores[j]), c.namespace);
    }
    forall c, d | c in stores[i].closures && d in stores[j].closures && d.namespace == c.namespace ensures d == c {
      assert c in ClosureSet(stores[j]) && d in ClosureSet(stores[j]);
    }
  }

  lemma GrowsReflexive(s: Store)
    ensures Grows(s, s)
  {}

  lemma RunsGrowStep(first: Store, s: Store, op: Operation, s': Store)
    requires Valid(s) && Grows(first, s) && Step(s, op, s')
    ensures Valid(s') && Grows(first, s')
  {
    StepGrows(s, op, s');
    GrowsTransitive(first, s, s');
  }

  /** The order of records: by namespace kind and id, then by sequence, then by record id. */
  predicate RecordBefore(a: Record, b: Record) {
    || Orders.Below(a.namespace.kind, b.namespace.kind)
    || (a.namespace.kind == b.namespace.kind && Orders.Below(a.namespace.id, b.namespace.id))
    || (a.namespace == b.namespace && a.sequence < b.sequence)
    || (a.namespace == b.namespace && a.sequence == b.sequence && Orders.Below(a.id, b.id))
  }

  lemma RecordOrder(a: Record, b: Record)
    ensures Below(RecordKey(a), RecordKey(b)) <==> RecordBefore(a, b)
  {
    BelowOfFour(RecordKey(a), RecordKey(b));
  }

  /** The order of closures: by namespace, which decides, since a namespace is closed once. */
  predicate ClosureBefore(a: Closure, b: Closure) {
    || Orders.Below(a.namespace.kind, b.namespace.kind)
    || (a.namespace.kind == b.namespace.kind && Orders.Below(a.namespace.id, b.namespace.id))
  }

  lemma ClosureOrder(a: Closure, b: Closure)
    requires a.namespace != b.namespace
    ensures Below(ClosureKey(a), ClosureKey(b)) <==> ClosureBefore(a, b)
  {
    BelowOfFour(ClosureKey(a), ClosureKey(b));
  }

  lemma OneClosureEach(cs: set<Closure>)
    requires ValidClosures(cs)
    ensures KeysIdentify(cs, ClosureKey)
  {
    forall x, y | x in cs && y in cs && ClosureKey(x) == ClosureKey(y) ensures x == y {
      assert ClosureKey(x)[0] == ClosureKey(y)[0] && ClosureKey(x)[1] == ClosureKey(y)[1];
    }
  }

  /** A valid store lists its records and closures strictly in these orders, no id twice. */
  lemma ValidStoreIsOrdered(s: Store)
    requires Valid(s)
    ensures forall i, j :: 0 <= i < j < |s.records| ==> RecordBefore(s.records[i], s.records[j])
    ensures forall i, j :: 0 <= i < j < |s.records| ==> s.records[i].id != s.records[j].id
    ensures forall i, j :: 0 <= i < j < |s.closures| ==> ClosureBefore(s.closures[i], s.closures[j])
  {
    UniqueIdsIdentify(RecordSet(s));
    ListsAscend(s.records, RecordSet(s), RecordKey);
    forall i, j | 0 <= i < j < |s.records|
      ensures RecordBefore(s.records[i], s.records[j]) && s.records[i].id != s.records[j].id
    {
      RecordOrder(s.records[i], s.records[j]);
      ListsOnce(s.records, RecordSet(s), i, j);
    }
    OneClosureEach(ClosureSet(s));
    ListsAscend(s.closures, ClosureSet(s), ClosureKey);
    forall i, j | 0 <= i < j < |s.closures| ensures ClosureBefore(s.closures[i], s.closures[j]) {
      ListsOnce(s.closures, ClosureSet(s), i, j);
      ClosureOrder(s.closures[i], s.closures[j]);
    }
  }

  lemma ValidStoreIsBounded(s: Store, n: Namespace)
    requires Valid(s)
    ensures |set r | r in s.records && r.namespace == n| <= 4096
  {
    assert RecordsOf(RecordSet(s), n) == set r | r in s.records && r.namespace == n;
  }

  /** In a valid store, closing raises exactly for blank texts, a sequence below 1, and a namespace that
      is closed with another reason or sequence. */
  lemma ClosingRaisesExactly(s: Store, n: Namespace, reason: string, sequence: int)
    requires Valid(s)
    ensures RefusesClosure(s, n, reason, sequence) <==>
              || !Nonblank(n.id) || !Nonblank(reason) || sequence < 1
              || exists c :: c in s.closures && c.namespace == n && (c.reason != Strip(reason) || c.sequence != sequence)
  {
    forall c | c in s.closures && c.namespace == n ensures n in ByNamespace(s.closures) && ByNamespace(s.closures)[n] == c {
      assert c in ClosureSet(s) && ByNamespace(s.closures)[n] in ClosureSet(s);
    }
    forall c | c in s.closures ensures c.closed {
      assert c in ClosureSet(s) && !Malformed(c);
    }
  }

  // ----- algebra of registration

  lemma UniqueIdsIdentify(rs: set<Record>)
    requires ValidRecords(rs)
    ensures KeysIdentify(rs, RecordKey)
  {
    forall x, y | x in rs && y in rs && RecordKey(x) == RecordKey(y) ensures x == y {
      assert RecordKey(x)[3] == RecordKey(y)[3];
    }
  }

  /** Registering a record that is already there returns the same store. */
  lemma ReregistrationIsNoOp(s: Store, r: Record, authorized: Namespace, s': Store)
    requires Valid(s) && r in s.records && Registers(s, r, authorized, s')
    ensures s' == s
  {
    RegistrationBySets(s, r, authorized);
    assert RecordSet(s) + {r} == RecordSet(s);
    UniqueIdsIdentify(RecordSet(s));
    ListsIsUnique(s.records, s'.records, RecordSet(s), RecordKey);
  }

  /** Fewer records refuse no more. */
  lemma AcceptanceIsMonotone(rs: set<Record>, more: set<Record>, cs: set<Closure>, r: Record, n: Namespace)
    requires rs <= more && AcceptsRecord(more, cs, r, n)
    ensures AcceptsRecord(rs, cs, r, n)
  {
    SubsetSize(RecordsOf(rs + {r}, r.namespace), RecordsOf(more + {r}, r.namespace));
  }

  /** A record whose place is kept by a valid larger set is accepted. */
  lemma AcceptedWithin(rs: set<Record>, all: set<Record>, cs: set<Closure>, r: Record, n: Namespace)
    requires rs <= all && r in all && ValidRecords(all)
    requires Nonblank(n.id) && r.namespace == n && ClosuresOf(cs, n) == {}
    ensures AcceptsRecord(rs, cs, r, n)
  {
    SubsetSize(RecordsOf(rs + {r}, n), RecordsOf(all, n));
  }

  lemma RegistersBySets(s: Store, r: Record, n: Namespace, s': Store)
    requires Valid(s) && Registers(s, r, n, s')
    ensures AcceptsRecord(RecordSet(s), ClosureSet(s), r, n)
    ensures Valid(s') && RecordSet(s') == RecordSet(s) + {r} && s'.closures == s.closures && ClosureSet(s') == ClosureSet(s)
  {
    RegistrationBySets(s, r, n);
    RegistrationKeepsValid(s, r, n, s');
  }

  lemma SecondIsAccepted(s: Store, a: Record, na: Namespace, b: Record, nb: Namespace, sa: Store, sab: Store)
    requires Valid(s) && Registers(s, a, na, sa) && Valid(sa) && Registers(sa, b, nb, sab)
    ensures !RefusesRecord(s, b, nb)
  {
    RegistersBySets(s, a, na, sa);
    RegistersBySets(sa, b, nb, sab);
    AcceptanceIsMonotone(RecordSet(s), RecordSet(sa), ClosureSet(s), b, nb);
    RegistrationBySets(s, b, nb);
  }

  lemma FirstIsAcceptedAfter(s: Store, a: Record, na: Namespace, all: set<Record>, sb: Store)
    requires Valid(sb) && AcceptsRecord(RecordSet(s), ClosureSet(s), a, na)
    requires ValidRecords(all) && RecordSet(sb) <= all && a in all && ClosureSet(sb) == ClosureSet(s)
    ensures !RefusesRecord(sb, a, na)
  {
    AcceptedWithin(RecordSet(sb), all, ClosureSet(sb), a, na);
    RegistrationBySets(sb, a, na);
  }

  /** Two registrations that succeed in one order succeed in the other, with the same store. */
  lemma RegistrationsCommute(s: Store, a: Record, na: Namespace, b: Record, nb: Namespace,
                             sa: Store, sab: Store, sb: Store, sba: Store)
    requires Valid(s) && Registers(s, a, na, sa) && Registers(sa, b, nb, sab)
    ensures !RefusesRecord(s, b, nb)
    ensures Registers(s, b, nb, sb) ==> !RefusesRecord(sb, a, na)
    ensures Registers(s, b, nb, sb) && Registers(sb, a, na, sba) ==> sba == sab
  {
    RegistersBySets(s, a, na, sa);
    RegistersBySets(sa, b, nb, sab);
    SecondIsAccepted(s, a, na, b, nb, sa, sab);
    if Registers(s, b, nb, sb) {
      RegistersBySets(s, b, nb, sb);
      FirstIsAcceptedAfter(s, a, na, RecordSet(sab), sb);
      if Registers(sb, a, na, sba) {
        RegistersBySets(sb, a, na, sba);
        UnionsCommute(RecordSet(s), a, b);
        SameRecordsSameStore(sab, sba);
      }
    }
  }

  lemma UnionsCommute(rs: set<Record>, a: Record, b: Record)
    ensures rs + {a} + {b} == rs + {b} + {a}
  {}

  lemma SameRecordsSameStore(s: Store, t: Store)
    requires Valid(s) && Valid(t) && RecordSet(s) == RecordSet(t) && s.closures == t.closures
    ensures s == t
  {
    UniqueIdsIdentify(RecordSet(s));
    ListsIsUnique(s.records, t.records, RecordSet(s), RecordKey);
  }
}
