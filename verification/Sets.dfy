/** Sizes of finite sets. */
module Sets {

  lemma SubsetSize<T>(a: set<T>, b: set<T>)
    requires a <= b
    ensures |a| <= |b|
  {
    assert b == a + (b - a);
  }

  lemma EqualBySize<T>(a: set<T>, b: set<T>)
    requires a <= b && |a| == |b|
    ensures a == b
  {
    assert b == a + (b - a);
    assert |b| == |a| + |b - a|;
  }

  /** A list without repetitions has as many elements as it is long. */
  lemma {:induction false} ListSize<T>(q: seq<T>)
    requires forall i, j :: 0 <= i < j < |q| ==> q[i] != q[j]
    ensures |set x | x in q| == |q|
  {
    if q != [] {
      var init, last := q[..|q|-1], q[|q|-1];
      ListSize(init);
      assert (set x | x in q) == (set x | x in init) + {last};
    }
  }
}
