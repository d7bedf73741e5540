/** The total order on identifiers that every sort of the control plane uses: strings compared
    code point by code point, as Python compares them. */
module Orders {

  /** a sorts strictly before b. */
  predicate Below(a: string, b: string) {
    b != [] && (a == [] || a[0] < b[0] || (a[0] == b[0] && Below(a[1..], b[1..])))
  }

  lemma {:induction false} Trichotomy(a: string, b: string)
    ensures !(Below(a, b) && Below(b, a))
    ensures Below(a, b) || a == b || Below(b, a)
    ensures a == b ==> !Below(a, b)
  {
    if a != [] && b != [] && a[0] == b[0] {
      Trichotomy(a[1..], b[1..]);
      assert a == [a[0]] + a[1..] && b == [b[0]] + b[1..];
    }
  }

  lemma {:induction false} Transitive(a: string, b: string, c: string)
    requires Below(a, b) && Below(b, c)
    ensures Below(a, c)
  {
    if a != [] && a[0] == b[0] == c[0] {
      Transitive(a[1..], b[1..], c[1..]);
    }
  }

  ghost predicate IsLeast(m: string, s: set<string>) {
    m in s && forall x :: x in s && x != m ==> Below(m, x)
  }

  lemma {:induction false} LeastExists(s: set<string>)
    requires s != {}
    ensures exists m :: IsLeast(m, s)
  {
    var x :| x in s;
    if s == {x} {
      assert IsLeast(x, s);
    } else {
      LeastExists(s - {x});
      var m :| IsLeast(m, s - {x});
      Trichotomy(x, m);
      if Below(m, x) {
        assert IsLeast(m, s);
      } else {
        forall y | y in s && y != x ensures Below(x, y) {
          if y != m { Transitive(x, m, y); }
        }
        assert IsLeast(x, s);
      }
    }
  }

  lemma LeastUnique(s: set<string>, a: string, b: string)
    requires IsLeast(a, s) && IsLeast(b, s)
    ensures a == b
  {
    Trichotomy(a, b);
  }

  ghost function Least(s: set<string>): (m: string)
    requires s != {}
    ensures IsLeast(m, s)
  {
    LeastExists(s);
    var m :| IsLeast(m, s);
    m
  }

  /** The elements of s in ascending order: Python's sorted(s). */
  ghost function Sorted(s: set<string>): (q: seq<string>)
    ensures forall x :: x in q <==> x in s
    ensures |q| == |s|
    ensures s != {} ==> q[0] == Least(s)
  {
    if s == {} then [] else [Least(s)] + Sorted(s - {Least(s)})
  }

  /** Strictly ascending, hence also free of repetitions. */
  ghost predicate Ascending(q: seq<string>) {
    forall i, j :: 0 <= i < j < |q| ==> Below(q[i], q[j])
  }

  lemma {:induction false} SortedAscending(s: set<string>)
    ensures Ascending(Sorted(s))
  {
    if s != {} {
      SortedAscending(s - {Least(s)});
    }
  }

  /** sorted(s), by repeatedly moving out the least element. */
  method Sort(s: set<string>) returns (r: seq<string>)
    ensures r == Sorted(s)
  {
    var rest := s;
    r := [];
    while rest != {}
      invariant r + Sorted(rest) == Sorted(s)
      decreases rest
    {
      var m := FindLeast(rest);
      r, rest := r + [m], rest - {m};
    }
  }

  method FindLeast(s: set<string>) returns (m: string)
    requires s != {}
    ensures m == Least(s)
  {
    m :| m in s;
    var others := s - {m};
    while others != {}
      invariant m in s && others <= s
      invariant forall x :: x in s && x !in others && x != m ==> Below(m, x)
      decreases others
    {
      var x :| x in others;
      others := others - {x};
      Trichotomy(x, m);
      if Below(x, m) {
        forall y | y in s && y !in others && y != x ensures Below(x, y) {
          if y != m { Transitive(x, m, y); }
        }
        m := x;
      }
    }
    LeastUnique(s, m, Least(s));
  }
}
