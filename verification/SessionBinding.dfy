/** Idempotent binding of gateway requests to sessions. */
module SessionBinding {
  import opened Texts

  datatype Identity = Identity(sessionId: string, ownerId: string, tenantId: string)

  datatype Binding = Binding(
    bindingId: string, identity: Identity, requestId: string, workloadId: string, key: string, fingerprint: string)

  datatype Outcome = Rejected | Bound(binding: Binding)

  /** The session belongs to someone else, or the workload to another session. */
  predicate Conflicts(e: Binding, q: Binding) {
    || (e.identity.sessionId == q.identity.sessionId
        && (e.identity.ownerId != q.identity.ownerId || e.identity.tenantId != q.identity.tenantId))
    || (e.workloadId == q.workloadId && e.identity.sessionId != q.identity.sessionId)
  }

  /** The same request under the same key; the proposed binding id does not matter. */
  predicate SameRequest(e: Binding, q: Binding) {
    && e.key == q.key && e.fingerprint == q.fingerprint
    && e.requestId == q.requestId && e.workloadId == q.workloadId && e.identity == q.identity
  }

  predicate WellFormed(q: Binding) {
    Nonblank(q.bindingId) && Nonblank(q.requestId) && Nonblank(q.workloadId) && Nonblank(q.fingerprint)
  }

  /** The scan: the first binding that conflicts or carries the key decides. */
  function Scan(existing: seq<Binding>, q: Binding): Outcome {
    if existing == [] then (if WellFormed(q) then Bound(q) else Rejected)
    else
      var e := existing[0];
      if Conflicts(e, q) then Rejected
      else if e.key == q.key then (if SameRequest(e, q) then Bound(e) else Rejected)
      else Scan(existing[1..], q)
  }

  /** The contracts of the record and of the binding that would hold it. */
  method MakeBinding(q: Binding) returns (r: Outcome)
    ensures r == if WellFormed(q) then Bound(q) else Rejected
  {
    if !Nonblank(q.requestId) || !Nonblank(q.workloadId) || !Nonblank(q.fingerprint) {
      return Rejected;
    }
    if !Nonblank(q.bindingId) {
      return Rejected;
    }
    return Bound(q);
  }

  /** bind_gateway_session, with the request given as the binding it would create. */
  method Bind(existing: seq<Binding>, q: Binding) returns (r: Outcome)
    ensures r == Scan(existing, q)
  {
    for i := 0 to |existing|
      invariant Scan(existing, q) == Scan(existing[i..], q)
    {
      var e := existing[i];
      if e.identity.sessionId == q.identity.sessionId
         && (e.identity.ownerId != q.identity.ownerId || e.identity.tenantId != q.identity.tenantId) {
        return Rejected;
      }
      if e.workloadId == q.workloadId && e.identity.sessionId != q.identity.sessionId {
        return Rejected;
      }
      if e.key == q.key {
        if e.fingerprint != q.fingerprint {
          return Rejected;
        }
        if e.requestId != q.requestId || e.workloadId != q.workloadId || e.identity != q.identity {
          return Rejected;
        }
        return Bound(e);
      }
      assert existing[i..][1..] == existing[i+1..];
    }
    r := MakeBinding(q);
  }

  /** Session to owner and tenant, workload to session, and key to binding are functions. */
  predicate Functional(existing: seq<Binding>) {
    forall a, b :: a in existing && b in existing ==>
      !Conflicts(a, b) && (a.key == b.key ==> a == b)
  }

  predicate Refuses(existing: seq<Binding>, q: Binding) {
    exists e :: e in existing && (Conflicts(e, q) || (e.key == q.key && !SameRequest(e, q)))
  }

  predicate Replays(existing: seq<Binding>, q: Binding) {
    exists e :: e in existing && e.key == q.key
  }

  /** A binding that carries the key of a request already bound decides it alone. */
  lemma MatchExcludesConflict(existing: seq<Binding>, b: Binding, q: Binding)
    requires Functional(existing) && b in existing && SameRequest(b, q)
    ensures !Refuses(existing, q)
  {
    forall e | e in existing ensures !Conflicts(e, q) && (e.key == q.key ==> e == b) {
      assert !Conflicts(e, b);
    }
  }

  /** In spite of the early return, the outcome over functional bindings is decided by which bindings
      there are: rejection when any of them refuses, the original when one carries the key, and
      otherwise the new binding. */
  lemma {:induction false} ScanIsOrderFree(existing: seq<Binding>, q: Binding)
    requires Functional(existing)
    ensures Refuses(existing, q) ==> Scan(existing, q) == Rejected
    ensures !Refuses(existing, q) && Replays(existing, q) ==>
              Scan(existing, q).Bound? && Scan(existing, q).binding in existing && SameRequest(Scan(existing, q).binding, q)
    ensures !Refuses(existing, q) && !Replays(existing, q) ==>
              Scan(existing, q) == if WellFormed(q) then Bound(q) else Rejected
  {
    if existing != [] {
      var e, rest := existing[0], existing[1..];
      assert existing == [e] + rest;
      assert e in existing && forall x :: x in rest ==> x in existing;
      if !Conflicts(e, q) && e.key == q.key {
        if SameRequest(e, q) { MatchExcludesConflict(existing, e, q); }
      } else if !Conflicts(e, q) {
        ScanIsOrderFree(rest, q);
      }
    }
  }

  lemma OriginalIsReturned(existing: seq<Binding>, b: Binding, again: Binding)
    requires Functional(existing) && b in existing && SameRequest(b, again)
    ensures Scan(existing, again) == Bound(b)
  {
    MatchExcludesConflict(existing, b, again);
    ScanIsOrderFree(existing, again);
    assert Scan(existing, again).binding == b;
  }

  /** Any two orders of the same functional bindings give the same outcome. */
  lemma OrderDoesNotMatter(existing: seq<Binding>, other: seq<Binding>, q: Binding)
    requires Functional(existing) && forall e :: e in existing <==> e in other
    ensures Scan(existing, q) == Scan(other, q)
  {
    ScanIsOrderFree(existing, q);
    ScanIsOrderFree(other, q);
    if !Refuses(existing, q) && Replays(existing, q) {
      assert Scan(other, q).binding in existing && Scan(existing, q).binding in existing;
    }
  }

  /** Appending what was bound keeps the bindings functional. */
  lemma AppendKeepsFunctional(existing: seq<Binding>, q: Binding)
    requires Functional(existing) && Scan(existing, q).Bound?
    ensures Functional(existing + [Scan(existing, q).binding])
  {
    ScanIsOrderFree(existing, q);
    var b := Scan(existing, q).binding;
    if b !in existing {
      forall e | e in existing ensures !Conflicts(e, q) && !Conflicts(q, e) && e.key != q.key {
        assert !Refuses(existing, q);
      }
    }
  }

  /** The bindings after a list of requests; a rejected request leaves them as they were. */
  function History(requests: seq<Binding>): seq<Binding> {
    if requests == [] then [] else
    var before := History(requests[..|requests|-1]);
    var outcome := Scan(before, requests[|requests|-1]);
    if outcome.Bound? then before + [outcome.binding] else before
  }

  lemma {:induction false} HistoryIsFunctional(requests: seq<Binding>)
    ensures Functional(History(requests))
  {
    if requests != [] {
      HistoryIsFunctional(requests[..|requests|-1]);
      if Scan(History(requests[..|requests|-1]), requests[|requests|-1]).Bound? {
        AppendKeepsFunctional(History(requests[..|requests|-1]), requests[|requests|-1]);
      }
    }
  }

  lemma {:induction false} HistoryKeepsBindings(requests: seq<Binding>, i: nat, b: Binding)
    requires i <= |requests| && b in History(requests[..i])
    ensures b in History(requests)
    decreases |requests|
  {
    if i < |requests| {
      var init := requests[..|requests|-1];
      assert init[..i] == requests[..i];
      HistoryKeepsBindings(init, i, b);
    } else {
      assert requests[..i] == requests;
    }
  }

  /** In every run, a request that was bound once is answered with its original binding for ever
      after, whatever binding id it proposes. */
  lemma ReplayReturnsOriginal(requests: seq<Binding>, i: nat, again: Binding)
    requires i < |requests| && Scan(History(requests[..i]), requests[i]).Bound?
    requires SameRequest(requests[i], again)
    ensures Scan(History(requests), again) == Scan(History(requests[..i]), requests[i])
  {
    var before := History(requests[..i]);
    var b := Scan(before, requests[i]).binding;
    HistoryIsFunctional(requests[..i]);
    ScanIsOrderFree(before, requests[i]);
    assert requests[..i+1][..i] == requests[..i];
    assert b in History(requests[..i+1]);
    HistoryKeepsBindings(requests, i + 1, b);
    HistoryIsFunctional(requests);
    OriginalIsReturned(History(requests), b, again);
  }
}
