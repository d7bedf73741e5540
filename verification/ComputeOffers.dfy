/** Compute offers: the quality floor, and the removal of dominated offers. Offer ids are digests of
    the offer's content; the digest is a parameter, and only its injectivity is used. */
module ComputeOffers {
  import Keys
  import opened Sequences
  import opened IntelligenceModels
  import opened Texts

  const PROTECTED: set<string> := {"quality", "verification", "safety", "privacy", "authorization", "residency"}

  /** An option as the caller proposes it; sorted lists are held as multisets. */
  datatype Proposal = Proposal(
    quality: real, latency: int, resources: real, placements: multiset<string>, speculation: int, changes: multiset<string>)

  datatype Terms = Terms(
    requestId: string, floor: real, protectedConstraints: set<string>, snapshot: int, lease: int)
  {
    /** The terms of an offer protect the six constraints besides those the caller names. */
    function Protected(): Terms { this.(protectedConstraints := protectedConstraints + PROTECTED) }
  }

  /** The content that an offer's id digests: all of it. */
  datatype Offer = Offer(terms: Terms, proposal: Proposal)

  /** The sort key that an offer's id is: its digest. */
  type Digest = Offer -> Keys.Key

  ghost predicate Injective(digest: Digest) {
    forall a, b :: digest(a) == digest(b) ==> a == b
  }

  /** The offer contract raises nothing. */
  predicate ValidOffer(o: Offer) {
    && o.proposal.quality >= o.terms.floor
    && o.proposal.latency >= 1 && o.proposal.resources > 0.0 && o.proposal.speculation >= 1
    && 1 <= o.terms.snapshot <= o.terms.lease
    && PROTECTED <= o.terms.protectedConstraints && Nonblank(o.terms.requestId)
    && forall c :: c in PROTECTED ==> c !in o.proposal.changes
  }

  function MeetsFloor(t: Terms): Proposal -> Option<Offer> {
    (p: Proposal) => if p.quality < t.floor then None else Some(Offer(t.Protected(), p))
  }

  /** b is at least as good everywhere, and better somewhere. */
  predicate Dominates(b: Offer, a: Offer) {
    && b.proposal.quality >= a.proposal.quality
    && b.proposal.latency <= a.proposal.latency
    && b.proposal.resources <= a.proposal.resources
    && (b.proposal.quality > a.proposal.quality || b.proposal.latency < a.proposal.latency
        || b.proposal.resources < a.proposal.resources)
  }

  predicate Dominated(offers: seq<Offer>, a: Offer) {
    exists b :: b in offers && Dominates(b, a)
  }

  function Undominated(offers: seq<Offer>): Offer -> Option<Offer> {
    If((a: Offer) => !Dominated(offers, a))
  }

  function Frontier(offers: seq<Offer>): seq<Offer> {
    Collect(offers, Undominated(offers))
  }

  method IsDominated(offers: seq<Offer>, a: Offer, digest: Digest) returns (dominated: bool)
    requires Injective(digest)
    ensures dominated <==> Dominated(offers, a)
  {
    for i := 0 to |offers|
      invariant forall j :: 0 <= j < i ==> !Dominates(offers[j], a)
    {
      var b := offers[i];
      // An offer never dominates itself, so skipping equal ids skips nothing that matters.
      if digest(b) == digest(a) {
        continue;
      }
      var p, q := b.proposal, a.proposal;
      if p.quality >= q.quality && p.latency <= q.latency && p.resources <= q.resources
         && (p.quality > q.quality || p.latency < q.latency || p.resources < q.resources) {
        assert Dominates(b, a) && b in offers;
        return true;
      }
    }
    return false;
  }

  /** The contract of an offer, check by check. */
  method CheckOffer(o: Offer) returns (ok: bool)
    ensures ok <==> ValidOffer(o)
  {
    var p, t := o.proposal, o.terms;
    if p.latency < 1 || p.resources <= 0.0 || p.speculation < 1 || t.snapshot < 1 || t.lease < 1 {
      return false;
    }
    if p.quality < t.floor {
      return false;
    }
    if t.lease < t.snapshot {
      return false;
    }
    if !Nonblank(t.requestId) {
      return false;
    }
    if exists c :: c in PROTECTED && c !in t.protectedConstraints {
      return false;
    }
    return !exists c :: c in PROTECTED && c in p.changes;
  }

  /** The first loop: offers for the options that meet the floor, unless a contract raises. */
  method ProposeOffers(options: seq<Proposal>, t: Terms) returns (offers: seq<Offer>, ok: bool)
    ensures ok <==> forall o :: o in Collect(options, MeetsFloor(t)) ==> ValidOffer(o)
    ensures ok ==> offers == Collect(options, MeetsFloor(t))
  {
    offers := [];
    for i := 0 to |options|
      invariant offers == Collect(options[..i], MeetsFloor(t))
      invariant forall o :: o in offers ==> ValidOffer(o)
    {
      CollectStep(options, i, MeetsFloor(t));
      if options[i].quality >= t.floor {
        var protected := t.protectedConstraints + {"quality", "verification", "safety", "privacy", "authorization", "residency"};
        var o := Offer(Terms(t.requestId, t.floor, protected, t.snapshot, t.lease), options[i]);
        var valid := CheckOffer(o);
        if !valid {
          assert MeetsFloor(t)(options[i]) == Some(o);
          return offers, false;
        }
        offers := offers + [o];
      }
    }
    assert options[..|options|] == options;
    ok := true;
  }

  /** The second loop: the undominated offers of a sorted list. */
  method Prune(sorted: seq<Offer>, offers: seq<Offer>, digest: Digest) returns (out: seq<Offer>)
    requires Injective(digest)
    ensures out == Collect(sorted, Undominated(offers))
  {
    out := [];
    for i := 0 to |sorted|
      invariant out == Collect(sorted[..i], Undominated(offers))
    {
      CollectStep(sorted, i, Undominated(offers));
      var dominated := IsDominated(offers, sorted[i], digest);
      if !dominated {
        out := out + [sorted[i]];
      }
    }
    assert sorted[..|sorted|] == sorted;
  }

  /** The offers: None when the contract of one of them raises; otherwise exactly the undominated
      offers that meet the floor, each as often as it was proposed, in the order of their ids. */
  method GenerateOffers(options: seq<Proposal>, t: Terms, digest: Digest) returns (r: Option<seq<Offer>>)
    requires Injective(digest)
    ensures r.Some? <==> forall o :: o in Collect(options, MeetsFloor(t)) ==> ValidOffer(o)
    ensures r.Some? ==> multiset(r.value) == multiset(Frontier(Collect(options, MeetsFloor(t))))
    ensures r.Some? ==> SortedBy(r.value, digest)
  {
    var offers, ok := ProposeOffers(options, t);
    if !ok {
      return None;
    }
    var sorted := SortOn(offers, digest);
    var out := Prune(sorted, offers, digest);
    CollectPermutes(sorted, offers, Undominated(offers));
    FilterKeepsSorted(sorted, Undominated(offers), digest);
    return Some(out);
  }

  // ----- the main results

  /** What is kept is undominated, and nothing undominated is dropped: an offer as good in quality,
      latency and resources can only be equally good. */
  lemma FrontierIsExact(offers: seq<Offer>, a: Offer)
    ensures a in Frontier(offers) <==>
              && a in offers
              && forall b :: b in offers && b.proposal.quality >= a.proposal.quality
                             && b.proposal.latency <= a.proposal.latency && b.proposal.resources <= a.proposal.resources ==>
                   && b.proposal.quality == a.proposal.quality
                   && b.proposal.latency == a.proposal.latency && b.proposal.resources == a.proposal.resources
  {
    assert a in Frontier(offers) <==> a in offers && !Dominated(offers, a);
  }

  /** Generation raises exactly when an option that meets the floor has a latency, resources or a
      speculation out of range or changes a protected constraint, or when there is such an option and
      the lease or the request id is bad. */
  lemma OffersRaiseExactly(options: seq<Proposal>, t: Terms)
    ensures (forall o :: o in Collect(options, MeetsFloor(t)) ==> ValidOffer(o)) <==>
              forall p :: p in options && p.quality >= t.floor ==>
                IsInRange(p) && 1 <= t.snapshot <= t.lease && Strip(t.requestId) != ""
  {
    forall p | p in options && p.quality >= t.floor
      ensures Offer(t.Protected(), p) in Collect(options, MeetsFloor(t))
      ensures ValidOffer(Offer(t.Protected(), p)) <==>
                IsInRange(p) && 1 <= t.snapshot <= t.lease && Strip(t.requestId) != ""
    {
      assert MeetsFloor(t)(p) == Some(Offer(t.Protected(), p));
      ValidExactly(p, t);
    }
  }

  predicate IsInRange(p: Proposal) {
    && p.latency >= 1 && p.resources > 0.0 && p.speculation >= 1
    && "quality" !in p.changes && "verification" !in p.changes && "safety" !in p.changes
    && "privacy" !in p.changes && "authorization" !in p.changes && "residency" !in p.changes
  }

  lemma ValidExactly(p: Proposal, t: Terms)
    requires p.quality >= t.floor
    ensures ValidOffer(Offer(t.Protected(), p)) <==>
              IsInRange(p) && 1 <= t.snapshot <= t.lease && Strip(t.requestId) != ""
  {
    NonblankExactly(t.requestId);
  }

  /** What is offered: an option that meets the floor, under the terms of the request with the six
      constraints protected. */
  lemma OffersAreSound(options: seq<Proposal>, t: Terms, o: Offer)
    requires o in Frontier(Collect(options, MeetsFloor(t)))
    ensures o.proposal in options && o.proposal.quality >= t.floor
    ensures o.terms.requestId == t.requestId && o.terms.floor == t.floor
    ensures o.terms.snapshot == t.snapshot && o.terms.lease == t.lease
    ensures o.terms.protectedConstraints ==
              t.protectedConstraints + {"quality", "verification", "safety", "privacy", "authorization", "residency"}
  {}

  /** Every option that meets the floor is matched by an offer at least as good in all three measures. */
  lemma EveryOptionIsMatched(options: seq<Proposal>, t: Terms, p: Proposal) returns (k: Offer)
    requires p in options && p.quality >= t.floor
    ensures k in Frontier(Collect(options, MeetsFloor(t)))
    ensures k.proposal.quality >= p.quality && k.proposal.latency <= p.latency && k.proposal.resources <= p.resources
  {
    var a := Offer(t.Protected(), p);
    assert MeetsFloor(t)(p) == Some(a);
    k := DroppedIsDominatedByKept(Collect(options, MeetsFloor(t)), a);
  }

  function Dominators(offers: seq<Offer>, a: Offer): set<Offer> {
    set b | b in offers && Dominates(b, a)
  }

  /** Every dropped offer is dominated by one that is kept. */
  lemma {:induction false} DroppedIsDominatedByKept(offers: seq<Offer>, a: Offer) returns (k: Offer)
    requires a in offers
    ensures k in Frontier(offers) && (k == a || Dominates(k, a))
    decreases Dominators(offers, a)
  {
    if !Dominated(offers, a) {
      k := a;
    } else {
      var b :| b in offers && Dominates(b, a);
      assert Dominators(offers, b) < Dominators(offers, a) by {
        assert b in Dominators(offers, a) && b !in Dominators(offers, b);
      }
      k := DroppedIsDominatedByKept(offers, b);
    }
  }

  /** There is an offer exactly when some option meets the floor. */
  lemma OffersExistExactly(options: seq<Proposal>, t: Terms)
    ensures Frontier(Collect(options, MeetsFloor(t))) != [] <==> exists p :: p in options && p.quality >= t.floor
  {
    var offers := Collect(options, MeetsFloor(t));
    if p :| p in options && p.quality >= t.floor {
      assert MeetsFloor(t)(p) == Some(Offer(t.Protected(), p));
      var k := DroppedIsDominatedByKept(offers, Offer(t.Protected(), p));
    } else {
      assert forall a :: a in Frontier(offers) ==> a in offers;
      if Frontier(offers) != [] { FrontierIsExact(offers, Frontier(offers)[0]); }
    }
  }

  /** The order of the options does not matter: the result list is the same. */
  lemma OffersIgnoreOrder(options: seq<Proposal>, options': seq<Proposal>, t: Terms, digest: Digest,
                          out: seq<Offer>, out': seq<Offer>)
    requires Injective(digest) && multiset(options) == multiset(options')
    requires multiset(out) == multiset(Frontier(Collect(options, MeetsFloor(t)))) && SortedBy(out, digest)
    requires multiset(out') == multiset(Frontier(Collect(options', MeetsFloor(t)))) && SortedBy(out', digest)
    ensures out == out'
    ensures (forall o :: o in Collect(options, MeetsFloor(t)) ==> ValidOffer(o)) <==>
            (forall o :: o in Collect(options', MeetsFloor(t)) ==> ValidOffer(o))
  {
    var offers, offers' := Collect(options, MeetsFloor(t)), Collect(options', MeetsFloor(t));
    CollectPermutes(options, options', MeetsFloor(t));
    SameElements(offers, offers');
    forall a ensures Undominated(offers)(a) == Undominated(offers')(a) {}
    CollectPermutes(offers, offers', Undominated(offers));
    CollectAgrees(offers', Undominated(offers), Undominated(offers'));
    SortedIsUnique(out, out', digest);
  }

  lemma SameElements(s: seq<Offer>, t: seq<Offer>)
    requires multiset(s) == multiset(t)
    ensures forall x :: x in s <==> x in t
  {
    forall x ensures x in s <==> x in t {
      assert x in s <==> x in multiset(s);
      assert x in t <==> x in multiset(t);
    }
  }

  lemma {:induction false} CollectAgrees(s: seq<Offer>, f: Offer -> Option<Offer>, g: Offer -> Option<Offer>)
    requires forall a :: f(a) == g(a)
    ensures Collect(s, f) == Collect(s, g)
  {
    if s != [] {
      CollectAgrees(s[..|s|-1], f, g);
    }
  }
}
