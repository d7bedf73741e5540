/** Sort keys: tuples of text and numbers, compared part by part as Python compares tuples. */
module Keys {
  import Orders

  datatype Part = Str(s: string) | Num(n: real)

  type Key = seq<Part>

  predicate PartBelow(a: Part, b: Part) {
    match (a, b)
    case (Str(s), Str(t)) => Orders.Below(s, t)
    case (Num(m), Num(n)) => m < n
    case (Num(_), Str(_)) => true
    case (Str(_), Num(_)) => false
  }

  predicate Below(a: Key, b: Key) {
    b != [] && (a == [] || PartBelow(a[0], b[0]) || (a[0] == b[0] && Below(a[1..], b[1..])))
  }

  lemma PartTrichotomy(a: Part, b: Part)
    ensures !(PartBelow(a, b) && PartBelow(b, a))
    ensures PartBelow(a, b) || a == b || PartBelow(b, a)
    ensures a == b ==> !PartBelow(a, b)
  {
    if a.Str? && b.Str? { Orders.Trichotomy(a.s, b.s); }
  }

  lemma {:induction false} Trichotomy(a: Key, b: Key)
    ensures !(Below(a, b) && Below(b, a))
    ensures Below(a, b) || a == b || Below(b, a)
    ensures a == b ==> !Below(a, b)
  {
    if a != [] && b != [] {
      PartTrichotomy(a[0], b[0]);
      if a[0] == b[0] {
        Trichotomy(a[1..], b[1..]);
        assert a == [a[0]] + a[1..] && b == [b[0]] + b[1..];
      }
    }
  }

  lemma PartTransitive(a: Part, b: Part, c: Part)
    requires PartBelow(a, b) && PartBelow(b, c)
    ensures PartBelow(a, c)
  {
    if a.Str? && c.Str? { Orders.Transitive(a.s, b.s, c.s); }
  }

  lemma {:induction false} Transitive(a: Key, b: Key, c: Key)
    requires Below(a, b) && Below(b, c)
    ensures Below(a, c)
  {
    if a != [] {
      if PartBelow(a[0], b[0]) && PartBelow(b[0], c[0]) {
        PartTransitive(a[0], b[0], c[0]);
      } else if a[0] == b[0] == c[0] {
        Transitive(a[1..], b[1..], c[1..]);
      }
    }
  }

  /** Tuples of one length are ordered by the first part in which they differ. */
  lemma {:induction false} BelowExactly(a: Key, b: Key)
    requires |a| == |b|
    ensures Below(a, b) <==> exists k :: 0 <= k < |a| && a[..k] == b[..k] && PartBelow(a[k], b[k])
  {
    if a != [] {
      PartTrichotomy(a[0], b[0]);
      BelowExactly(a[1..], b[1..]);
      if a[0] == b[0] {
        FirstDifference(a, b);
      } else {
        assert a[..0] == b[..0];
        forall k | 0 < k < |a| ensures a[..k] != b[..k] { assert a[..k][0] != b[..k][0]; }
      }
    }
  }

  lemma FirstDifference(a: Key, b: Key)
    requires |a| == |b| > 0 && a[0] == b[0]
    ensures (exists k :: 0 <= k < |a| && a[..k] == b[..k] && PartBelow(a[k], b[k])) <==>
            (exists k :: 0 <= k < |a| - 1 && a[1..][..k] == b[1..][..k] && PartBelow(a[1..][k], b[1..][k]))
  {
    PartTrichotomy(a[0], b[0]);
    forall k | 0 < k < |a| ensures a[..k] == b[..k] <==> a[1..][..k-1] == b[1..][..k-1] {
      assert a[..k] == [a[0]] + a[1..][..k-1] && b[..k] == [b[0]] + b[1..][..k-1];
    }
    if k :| 0 <= k < |a| && a[..k] == b[..k] && PartBelow(a[k], b[k]) {
      assert k > 0 && a[1..][k-1] == a[k] && b[1..][k-1] == b[k];
    }
    if k :| 0 <= k < |a| - 1 && a[1..][..k] == b[1..][..k] && PartBelow(a[1..][k], b[1..][k]) {
      assert a[..k+1] == b[..k+1] && PartBelow(a[k+1], b[k+1]);
    }
  }

  lemma BelowStep(a: Key, b: Key)
    requires a != [] && b != []
    ensures Below(a, b) <==> PartBelow(a[0], b[0]) || (a[0] == b[0] && Below(a[1..], b[1..]))
  {}

  /** Tuples of four parts. */
  lemma BelowOfFour(a: Key, b: Key)
    requires |a| == |b| == 4
    ensures Below(a, b) <==>
              || PartBelow(a[0], b[0])
              || (a[0] == b[0] && PartBelow(a[1], b[1]))
              || (a[0] == b[0] && a[1] == b[1] && PartBelow(a[2], b[2]))
              || (a[0] == b[0] && a[1] == b[1] && a[2] == b[2] && PartBelow(a[3], b[3]))
  {
    BelowStep(a, b);
    BelowStep(a[1..], b[1..]);
    BelowStep(a[1..][1..], b[1..][1..]);
    BelowStep(a[1..][1..][1..], b[1..][1..][1..]);
    assert a[1..][0] == a[1] && a[1..][1..][0] == a[2] && a[1..][1..][1..][0] == a[3];
    assert b[1..][0] == b[1] && b[1..][1..][0] == b[2] && b[1..][1..][1..][0] == b[3];
    assert b[1..][1..][1..][1..] == [];
  }
}
