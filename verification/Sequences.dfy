/** Lists that are filtered, mapped and sorted: what depends on the multiset of their elements only. */
module Sequences {
  import opened Keys
  import opened IntelligenceModels

  /** [f(x) for x in s], without the elements that f drops. */
  function Collect<A, B(!new)>(s: seq<A>, f: A -> Option<B>): (r: seq<B>)
    ensures forall y :: y in r <==> exists x :: x in s && f(x) == Some(y)
  {
    if s == [] then []
    else Collect(s[..|s|-1], f) + (if f(s[|s|-1]).Some? then [f(s[|s|-1]).value] else [])
  }

  lemma {:induction false} CollectConcat<A, B(!new)>(s: seq<A>, t: seq<A>, f: A -> Option<B>)
    ensures Collect(s + t, f) == Collect(s, f) + Collect(t, f)
  {
    if t == [] {
      assert s + t == s;
    } else {
      CollectConcat(s, t[..|t|-1], f);
      assert (s + t)[..|s + t|-1] == s + t[..|t|-1];
    }
  }

  /** Where a permutation has the last element; without it, both are still permutations. */
  lemma Removed<A>(s: seq<A>, t: seq<A>) returns (i: nat)
    requires multiset(s) == multiset(t) && s != []
    ensures i < |t| && t[i] == s[|s|-1] && multiset(s[..|s|-1]) == multiset(t[..i] + t[i+1..])
  {
    var last := s[|s|-1];
    assert s == s[..|s|-1] + [last];
    assert last in multiset(t);
    i :| 0 <= i < |t| && t[i] == last;
    assert t == t[..i] + [last] + t[i+1..];
    assert multiset(s[..|s|-1]) == multiset(s) - multiset{last};
  }

  /** A permutation of the input is a permutation of the output. */
  lemma {:induction false} CollectPermutes<A, B(!new)>(s: seq<A>, t: seq<A>, f: A -> Option<B>)
    requires multiset(s) == multiset(t)
    ensures multiset(Collect(s, f)) == multiset(Collect(t, f))
    decreases |s|
  {
    if s == [] {
      assert |multiset(s)| == |s| && |multiset(t)| == |t|;
    } else {
      var last := s[|s|-1];
      var i := Removed(s, t);
      CollectPermutes(s[..|s|-1], t[..i] + t[i+1..], f);
      CollectWithout(t, i, f);
    }
  }

  lemma CollectWithout<A, B(!new)>(t: seq<A>, i: nat, f: A -> Option<B>)
    requires i < |t|
    ensures multiset(Collect(t, f)) ==
              multiset(Collect(t[..i] + t[i+1..], f)) + multiset(if f(t[i]).Some? then [f(t[i]).value] else [])
  {
    var a, b := t[..i], t[i+1..];
    var here := if f(t[i]).Some? then [f(t[i]).value] else [];
    assert t == t[..i+1] + b;
    CollectStep(t, i, f);
    CollectConcat(t[..i+1], b, f);
    CollectConcat(a, b, f);
    assert multiset(Collect(t, f)) == multiset(Collect(a, f) + here + Collect(b, f));
  }

  lemma {:induction false} CollectStep<A, B(!new)>(s: seq<A>, i: nat, f: A -> Option<B>)
    requires i < |s|
    ensures Collect(s[..i+1], f) == Collect(s[..i], f) + (if f(s[i]).Some? then [f(s[i]).value] else [])
  {
    assert s[..i+1][..i] == s[..i];
  }

  /** [x for x in s if p(x)]. */
  function Kept<T(!new)>(s: seq<T>, p: T -> bool): (r: seq<T>)
    ensures forall x :: x in r <==> x in s && p(x)
  {
    Collect(s, If(p))
  }

  function If<T>(p: T -> bool): T -> Option<T> { x => if p(x) then Some(x) else None }

  lemma KeptStep<T(!new)>(s: seq<T>, i: nat, p: T -> bool)
    requires i < |s|
    ensures Kept(s[..i+1], p) == Kept(s[..i], p) + (if p(s[i]) then [s[i]] else [])
  {
    CollectStep(s, i, If(p));
  }

  /** Ascending keys, repetitions allowed. */
  ghost predicate SortedBy<T>(s: seq<T>, key: T -> Key) {
    forall i, j :: 0 <= i < j < |s| ==> !Below(key(s[j]), key(s[i]))
  }

  lemma SortedHeadIsLeast<T>(s: seq<T>, t: seq<T>, key: T -> Key)
    requires SortedBy(s, key) && SortedBy(t, key) && multiset(s) == multiset(t) && s != []
    ensures t != [] && key(s[0]) == key(t[0])
  {
    assert s[0] in multiset(t);
    var i :| 0 <= i < |t| && t[i] == s[0];
    assert t[0] in multiset(s);
    var j :| 0 <= j < |s| && s[j] == t[0];
    Trichotomy(key(s[0]), key(t[0]));
  }

  /** Filtering a sorted list leaves it sorted. */
  lemma {:induction false} FilterKeepsSorted<T(!new)>(s: seq<T>, f: T -> Option<T>, key: T -> Key)
    requires SortedBy(s, key) && forall x :: f(x).Some? ==> f(x).value == x
    ensures SortedBy(Collect(s, f), key)
  {
    if s != [] {
      var init := s[..|s|-1];
      assert SortedBy(init, key) by { assert forall i :: 0 <= i < |init| ==> init[i] == s[i]; }
      FilterKeepsSorted(init, f, key);
      var r := Collect(init, f);
      forall i | 0 <= i < |r| ensures !Below(key(s[|s|-1]), key(r[i])) {
        assert r[i] in r;
        var k :| 0 <= k < |init| && init[k] == r[i];
        assert s[k] == r[i];
      }
    }
  }

  /** With keys that identify elements, a sorted list is determined by its multiset. */
  lemma {:induction false} SortedIsUnique<T>(s: seq<T>, t: seq<T>, key: T -> Key)
    requires SortedBy(s, key) && SortedBy(t, key) && multiset(s) == multiset(t)
    requires forall x, y :: x in s && y in s && key(x) == key(y) ==> x == y
    ensures s == t
    decreases |s|
  {
    if s == [] {
      assert |multiset(s)| == |s| && |multiset(t)| == |t|;
    } else {
      SortedHeadIsLeast(s, t, key);
      assert t[0] in multiset(s);
      TailsPermute(s, t);
      SortedTail(s, key);
      SortedTail(t, key);
      assert forall x :: x in s[1..] ==> x in s;
      SortedIsUnique(s[1..], t[1..], key);
    }
  }

  lemma TailsPermute<T>(s: seq<T>, t: seq<T>)
    requires multiset(s) == multiset(t) && s != [] && t != [] && s[0] == t[0]
    ensures multiset(s[1..]) == multiset(t[1..])
    ensures s[1..] == t[1..] ==> s == t
  {
    assert s == [s[0]] + s[1..] && t == [t[0]] + t[1..];
    assert multiset(s[1..]) == multiset(s) - multiset{s[0]};
    assert multiset(t[1..]) == multiset(t) - multiset{t[0]};
  }

  lemma SortedTail<T>(s: seq<T>, key: T -> Key)
    requires SortedBy(s, key) && s != []
    ensures SortedBy(s[1..], key)
  {
    var tail := s[1..];
    assert forall i :: 0 <= i < |tail| ==> tail[i] == s[i+1];
  }

  function Insert<T>(x: T, s: seq<T>, key: T -> Key): (r: seq<T>)
    ensures multiset(r) == multiset{x} + multiset(s)
  {
    if s == [] || !Below(key(s[0]), key(x)) then [x] + s
    else
      assert s == [s[0]] + s[1..];
      [s[0]] + Insert(x, s[1..], key)
  }

  lemma {:induction false} InsertKeepsSorted<T>(x: T, s: seq<T>, key: T -> Key)
    requires SortedBy(s, key)
    ensures SortedBy(Insert(x, s, key), key)
  {
    var r := Insert(x, s, key);
    if s == [] {
    } else if !Below(key(s[0]), key(x)) {
      forall j | 0 < j < |r| ensures !Below(key(r[j]), key(r[0])) {
        if j > 1 { NotBelowTransitive(key(s[j-1]), key(s[0]), key(x)); }
      }
    } else {
      InsertKeepsSorted(x, s[1..], key);
      forall j | 0 < j < |r| ensures !Below(key(r[j]), key(r[0])) {
        assert r[j] == Insert(x, s[1..], key)[j-1];
        assert r[j] in multiset(Insert(x, s[1..], key));
        Trichotomy(key(s[0]), key(x));
        if r[j] in s[1..] { var k :| 0 <= k < |s[1..]| && s[1..][k] == r[j]; assert s[k+1] == r[j]; }
      }
    }
  }

  lemma NotBelowTransitive(c: Key, b: Key, a: Key)
    requires !Below(c, b) && !Below(b, a)
    ensures !Below(c, a)
  {
    Trichotomy(c, b);
    Trichotomy(b, a);
    if Below(c, a) {
      if Below(b, c) { Transitive(b, c, a); }
    }
  }

  /** sorted(s, key=key), by insertion. */
  method SortOn<T>(s: seq<T>, key: T -> Key) returns (r: seq<T>)
    ensures multiset(r) == multiset(s) && SortedBy(r, key)
  {
    r := [];
    for i := 0 to |s|
      invariant multiset(r) == multiset(s[..i]) && SortedBy(r, key)
    {
      InsertKeepsSorted(s[i], r, key);
      r := Insert(s[i], r, key);
      assert s[..i+1] == s[..i] + [s[i]];
    }
    assert s[..|s|] == s;
  }

  // ----- the sorted list of a set

  ghost predicate KeysIdentify<T>(s: set<T>, key: T -> Key) {
    forall x, y :: x in s && y in s && key(x) == key(y) ==> x == y
  }

  /** q lists s in the order of its keys, each element once: Python's sorted(s, key=key). */
  ghost predicate Lists<T>(q: seq<T>, s: set<T>, key: T -> Key) {
    SortedBy(q, key) && multiset(q) == multiset(s)
  }

  lemma ListsIsUnique<T>(p: seq<T>, q: seq<T>, s: set<T>, key: T -> Key)
    requires KeysIdentify(s, key) && Lists(p, s, key) && Lists(q, s, key)
    ensures p == q
  {
    forall x | x in p ensures x in s { assert x in multiset(p); }
    SortedIsUnique(p, q, key);
  }

  lemma ListsElements<T>(q: seq<T>, s: set<T>, key: T -> Key)
    requires Lists(q, s, key)
    ensures |q| == |s| && forall x :: x in q <==> x in s
  {
    forall x ensures x in q <==> x in s { assert x in q <==> x in multiset(q); }
    assert |multiset(q)| == |q|;
  }

  lemma ListsOnce<T>(q: seq<T>, s: set<T>, i: nat, j: nat)
    requires multiset(q) == multiset(s) && i < j < |q|
    ensures q[i] != q[j]
  {
    assert q == q[..j] + q[j..] && q[i] in q[..j] && q[j] in q[j..];
    assert multiset(q)[q[i]] == multiset(q[..j])[q[i]] + multiset(q[j..])[q[i]];
  }

  /** Strictly ascending keys: in particular no two elements share one. */
  ghost predicate Ascends<T>(s: seq<T>, key: T -> Key) {
    forall i, j :: 0 <= i < j < |s| ==> Below(key(s[i]), key(s[j]))
  }

  lemma ListsAscend<T>(q: seq<T>, s: set<T>, key: T -> Key)
    requires Lists(q, s, key) && KeysIdentify(s, key)
    ensures Ascends(q, key)
  {
    ListsElements(q, s, key);
    forall i, j | 0 <= i < j < |q| ensures Below(key(q[i]), key(q[j])) {
      assert q[i] in q && q[j] in q;
      ListsOnce(q, s, i, j);
      Trichotomy(key(q[i]), key(q[j]));
    }
  }

  /** sorted(s, key=key) for the distinct values of a dictionary. */
  method SortSet<T(==)>(s: set<T>, key: T -> Key) returns (q: seq<T>)
    ensures Lists(q, s, key)
  {
    var rest := s;
    var list := [];
    while rest != {}
      invariant rest <= s && multiset(list) == multiset(s - rest)
      decreases rest
    {
      var x :| x in rest;
      assert s - (rest - {x}) == (s - rest) + {x};
      list, rest := list + [x], rest - {x};
    }
    assert s - rest == s;
    q := SortOn(list, key);
  }
}
