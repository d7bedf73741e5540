/** Bindings of a pattern: one record for each slot, with one model for each identity group. */
module CompositionBindings {
  import opened IntelligenceModels
  import opened Keys
  import opened CompositionPatterns
  import opened ModelRegistry
  import opened Sequences

  type Binding = seq<Record>

  type Candidates = map<Role, seq<Record>>

  function BindingKey(b: Binding): Key {
    if b == [] then [] else IdentityKey(b[0]) + BindingKey(b[1..])
  }

  /** Slots of one identity group hold records of one identity. */
  predicate Agrees(slots: seq<Slot>, b: Binding) {
    && |b| == |slots|
    && forall i, j :: 0 <= i < |slots| && 0 <= j < |slots| && slots[i].group.Some? && slots[i].group == slots[j].group
                      ==> b[i].identity == b[j].identity
  }

  // ----- the Cartesian product, last coordinate fastest

  function Each(x: Record, tails: seq<Binding>): seq<Binding> {
    seq(|tails|, i requires 0 <= i < |tails| => [x] + tails[i])
  }

  function Cross(xs: seq<Record>, tails: seq<Binding>): seq<Binding> {
    if xs == [] then [] else Each(xs[0], tails) + Cross(xs[1..], tails)
  }

  function Product(choices: seq<seq<Record>>): seq<Binding> {
    if choices == [] then [[]] else Cross(choices[0], Product(choices[1..]))
  }

  lemma EachMembers(x: Record, tails: seq<Binding>, b: Binding)
    ensures b in Each(x, tails) <==> b != [] && b[0] == x && b[1..] in tails
  {
    if b != [] && b[0] == x && b[1..] in tails {
      var i :| 0 <= i < |tails| && tails[i] == b[1..];
      assert b == [x] + tails[i] == Each(x, tails)[i];
    }
    if b in Each(x, tails) {
      var i :| 0 <= i < |tails| && Each(x, tails)[i] == b;
      assert b[1..] == tails[i];
    }
  }

  lemma {:induction false} CrossMembers(xs: seq<Record>, tails: seq<Binding>, b: Binding)
    ensures b in Cross(xs, tails) <==> b != [] && b[0] in xs && b[1..] in tails
  {
    if xs != [] {
      EachMembers(xs[0], tails, b);
      CrossMembers(xs[1..], tails, b);
      assert xs == [xs[0]] + xs[1..];
    }
  }

  lemma {:induction false} ProductMembers(choices: seq<seq<Record>>, b: Binding)
    ensures b in Product(choices) <==> |b| == |choices| && forall i :: 0 <= i < |b| ==> b[i] in choices[i]
  {
    if choices == [] {
    } else {
      CrossMembers(choices[0], Product(choices[1..]), b);
      if b != [] {
        ProductMembers(choices[1..], b[1..]);
        assert (forall i :: 0 <= i < |b| && |b| == |choices| ==> b[i] in choices[i])
          <==> (|b| == |choices| ==> b[0] in choices[0] && forall i :: 0 <= i < |b[1..]| ==> b[1..][i] in choices[1..][i]) by {
          assert forall i :: 0 <= i < |b[1..]| ==> b[1..][i] == b[i+1];
          assert forall i :: 0 <= i < |choices[1..]| ==> choices[1..][i] == choices[i+1];
          assert forall i :: 0 < i < |b| ==> b[i] == b[1..][i-1];
          assert forall i :: 0 < i < |choices| ==> choices[i] == choices[1..][i-1];
        }
      }
    }
  }

  lemma {:induction false} BelowAtHead(a: Key, b: Key, r: Key, s: Key)
    requires |a| == |b| && Below(a, b)
    ensures Below(a + r, b + s)
  {
    assert a != [];
    assert (a + r)[1..] == a[1..] + r && (b + s)[1..] == b[1..] + s;
    if !PartBelow(a[0], b[0]) {
      BelowAtHead(a[1..], b[1..], r, s);
    }
  }

  lemma {:induction false} BelowAtTail(a: Key, r: Key, s: Key)
    requires Below(r, s)
    ensures Below(a + r, a + s)
  {
    if a == [] {
      assert a + r == r && a + s == s;
    } else {
      assert (a + r)[1..] == a[1..] + r && (a + s)[1..] == a[1..] + s;
      BelowAtTail(a[1..], r, s);
    }
  }

  lemma EachAscends(x: Record, tails: seq<Binding>)
    requires Ascends(tails, BindingKey)
    ensures Ascends(Each(x, tails), BindingKey)
  {
    var r := Each(x, tails);
    forall i, j | 0 <= i < j < |r| ensures Below(BindingKey(r[i]), BindingKey(r[j])) {
      assert r[i][1..] == tails[i] && r[j][1..] == tails[j];
      BelowAtTail(IdentityKey(x), BindingKey(tails[i]), BindingKey(tails[j]));
    }
  }

  lemma AppendAscends(a: seq<Binding>, b: seq<Binding>)
    requires Ascends(a, BindingKey) && Ascends(b, BindingKey)
    requires forall x, y :: x in a && y in b ==> Below(BindingKey(x), BindingKey(y))
    ensures Ascends(a + b, BindingKey)
  {}

  lemma {:induction false} CrossAscends(xs: seq<Record>, tails: seq<Binding>)
    requires Ascends(xs, IdentityKey) && Ascends(tails, BindingKey)
    ensures Ascends(Cross(xs, tails), BindingKey)
  {
    if xs != [] {
      EachAscends(xs[0], tails);
      CrossAscends(xs[1..], tails);
      forall a, b | a in Each(xs[0], tails) && b in Cross(xs[1..], tails) ensures Below(BindingKey(a), BindingKey(b)) {
        EachMembers(xs[0], tails, a);
        CrossMembers(xs[1..], tails, b);
        var k :| 0 <= k < |xs[1..]| && xs[1..][k] == b[0];
        assert xs[k+1] == b[0];
        BelowAtHead(IdentityKey(a[0]), IdentityKey(b[0]), BindingKey(a[1..]), BindingKey(b[1..]));
      }
      AppendAscends(Each(xs[0], tails), Cross(xs[1..], tails));
    }
  }

  lemma {:induction false} ProductAscends(choices: seq<seq<Record>>)
    requires forall c :: c in choices ==> Ascends(c, IdentityKey)
    ensures Ascends(Product(choices), BindingKey)
  {
    if choices != [] {
      ProductAscends(choices[1..]);
      CrossAscends(choices[0], Product(choices[1..]));
    }
  }

  // ----- bindings

  predicate Offers(slots: seq<Slot>, candidates: Candidates) {
    forall s :: s in slots ==> s.role in candidates
  }

  function Choices(slots: seq<Slot>, candidates: Candidates): seq<seq<Record>>
    requires Offers(slots, candidates)
  {
    seq(|slots|, i requires 0 <= i < |slots| => assert slots[i] in slots; candidates[slots[i].role])
  }

  function BindingsOf(slots: seq<Slot>, candidates: Candidates): seq<Binding>
    requires Offers(slots, candidates)
  {
    Kept(Product(Choices(slots, candidates)), b => Agrees(slots, b))
  }

  /** The check of one combination: the first record of each group fixes the group's identity. */
  method AgreesOnGroups(slots: seq<Slot>, b: Binding) returns (ok: bool)
    requires |b| == |slots|
    ensures ok <==> Agrees(slots, b)
  {
    var groups: map<string, Identity> := map[];
    for i := 0 to |slots|
      invariant forall k :: 0 <= k < i && slots[k].group.Some? ==>
                  slots[k].group.value in groups && groups[slots[k].group.value] == b[k].identity
      invariant forall g :: g in groups ==> exists k :: 0 <= k < i && slots[k].group == Some(g) && b[k].identity == groups[g]
    {
      if slots[i].group.Some? {
        var g := slots[i].group.value;
        if g !in groups {
          groups := groups[g := b[i].identity];
        }
        if groups[g] != b[i].identity {
          return false;
        }
      }
    }
    return true;
  }

  method Bindings(slots: seq<Slot>, candidates: Candidates) returns (out: seq<Binding>)
    requires Offers(slots, candidates)
    ensures out == BindingsOf(slots, candidates)
  {
    var product := Product(Choices(slots, candidates));
    out := [];
    var p := (b: Binding) => Agrees(slots, b);
    for i := 0 to |product|
      invariant out == Kept(product[..i], p)
    {
      ProductMembers(Choices(slots, candidates), product[i]);
      KeptStep(product, i, p);
      var ok := AgreesOnGroups(slots, product[i]);
      if ok {
        out := out + [product[i]];
      }
    }
    assert product[..|product|] == product;
  }

  /** The bindings are precisely the tuples of the product that agree on identity groups. */
  lemma BindingsAreExact(slots: seq<Slot>, candidates: Candidates, b: Binding)
    requires Offers(slots, candidates)
    ensures b in BindingsOf(slots, candidates) <==>
              Agrees(slots, b) && forall i :: 0 <= i < |slots| ==> b[i] in Choices(slots, candidates)[i]
  {
    ProductMembers(Choices(slots, candidates), b);
  }

  lemma NothingToBind(slots: seq<Slot>, candidates: Candidates, i: nat, b: Binding)
    requires Offers(slots, candidates) && i < |slots| && Choices(slots, candidates)[i] == []
    ensures b !in BindingsOf(slots, candidates)
  {
    BindingsAreExact(slots, candidates, b);
  }

  lemma EmptyRoleEmptyBindings(slots: seq<Slot>, candidates: Candidates, role: Role)
    requires Offers(slots, candidates) && role in candidates && candidates[role] == []
    requires exists s :: s in slots && s.role == role
    ensures BindingsOf(slots, candidates) == []
  {
    var s :| s in slots && s.role == role;
    var i :| 0 <= i < |slots| && slots[i] == s;
    if BindingsOf(slots, candidates) != [] {
      NothingToBind(slots, candidates, i, BindingsOf(slots, candidates)[0]);
    }
  }

  /** They come in lexicographic order of identities, and hence once each. */
  lemma BindingsAscend(slots: seq<Slot>, candidates: Candidates)
    requires Offers(slots, candidates) && forall r :: r in candidates ==> IsRegistry(candidates[r])
    ensures Ascends(BindingsOf(slots, candidates), BindingKey)
    ensures forall i, j :: 0 <= i < j < |BindingsOf(slots, candidates)| ==>
              BindingsOf(slots, candidates)[i] != BindingsOf(slots, candidates)[j]
  {
    var choices := Choices(slots, candidates);
    forall c | c in choices ensures Ascends(c, IdentityKey) {
      var i :| 0 <= i < |choices| && choices[i] == c;
      assert slots[i] in slots;
    }
    ProductAscends(choices);
    KeptAscends(Product(choices), b => Agrees(slots, b), BindingKey);
    var out := BindingsOf(slots, candidates);
    forall i, j | 0 <= i < j < |out| ensures out[i] != out[j] {
      Trichotomy(BindingKey(out[i]), BindingKey(out[j]));
    }
  }
}
