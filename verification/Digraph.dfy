/** Directed graphs whose arcs carry labels: two arcs may share both ends. Walks, reachability,
    cycles and topological orders, defined without reference to any algorithm. */
module Digraph {
  import opened Orders
  import opened Sets

  datatype Arc<L> = Arc(src: string, dst: string, tag: L)

  predicate Linked<L(==)>(arcs: set<Arc<L>>, a: string, b: string) {
    exists e :: e in arcs && e.src == a && e.dst == b
  }

  /** Every end of every arc is a node. */
  predicate Closed<L(==)>(nodes: set<string>, arcs: set<Arc<L>>) {
    forall e :: e in arcs ==> e.src in nodes && e.dst in nodes
  }

  ghost predicate IsWalk<L>(arcs: set<Arc<L>>, p: seq<string>) {
    && p != []
    && forall i, j :: 0 <= i < j < |p| && j == i + 1 ==> Linked(arcs, p[i], p[j])
  }

  /** b can be reached from a along zero or more arcs. */
  ghost predicate Reach<L>(arcs: set<Arc<L>>, a: string, b: string) {
    exists p :: IsWalk(arcs, p) && p[0] == a && p[|p|-1] == b
  }

  ghost predicate Cyclic<L>(arcs: set<Arc<L>>) {
    exists p :: IsWalk(arcs, p) && |p| >= 2 && p[0] == p[|p|-1]
  }

  // ----- reachability

  lemma ReachSelf<L>(arcs: set<Arc<L>>, a: string)
    ensures Reach(arcs, a, a)
  {
    assert IsWalk(arcs, [a]);
  }

  lemma ReachArc<L>(arcs: set<Arc<L>>, a: string, b: string)
    requires Linked(arcs, a, b)
    ensures Reach(arcs, a, b)
  {
    var p := [a, b];
    assert IsWalk(arcs, p) && p[0] == a && p[|p|-1] == b;
  }

  lemma ReachTransitive<L>(arcs: set<Arc<L>>, a: string, b: string, c: string)
    requires Reach(arcs, a, b) && Reach(arcs, b, c)
    ensures Reach(arcs, a, c)
  {
    var p :| IsWalk(arcs, p) && p[0] == a && p[|p|-1] == b;
    var q :| IsWalk(arcs, q) && q[0] == b && q[|q|-1] == c;
    WalksJoin(arcs, p, q);
  }

  lemma WalksJoin<L>(arcs: set<Arc<L>>, p: seq<string>, q: seq<string>)
    requires IsWalk(arcs, p) && IsWalk(arcs, q) && p[|p|-1] == q[0]
    ensures var r := p + q[1..]; IsWalk(arcs, r) && r[0] == p[0] && r[|r|-1] == q[|q|-1]
  {
    var r := p + q[1..];
    forall i | 0 < i < |r| ensures Linked(arcs, r[i-1], r[i]) {
      if i < |p| {
        assert Linked(arcs, p[i-1], p[i]);
      } else {
        var k := i - |p| + 1;
        assert Linked(arcs, q[k-1], q[k]);
      }
    }
  }

  /** A set that arcs do not leave contains whatever its members reach. */
  lemma ReachStaysInside<L>(arcs: set<Arc<L>>, inside: set<string>, a: string, b: string)
    requires forall e :: e in arcs && e.src in inside ==> e.dst in inside
    requires a in inside && Reach(arcs, a, b)
    ensures b in inside
  {
    var p :| IsWalk(arcs, p) && p[0] == a && p[|p|-1] == b;
    var i := 0;
    while i < |p| - 1
      invariant 0 <= i < |p| && p[i] in inside
    {
      assert Linked(arcs, p[i], p[i+1]);
      i := i + 1;
    }
  }

  /** A map of nodes that sends each arc to a walk sends each walk to a walk. */
  lemma ReachMapped<L>(arcs: set<Arc<L>>, arcs': set<Arc<L>>, f: string -> string, a: string, b: string)
    requires forall e :: e in arcs ==> Reach(arcs', f(e.src), f(e.dst))
    requires Reach(arcs, a, b)
    ensures Reach(arcs', f(a), f(b))
  {
    var p :| IsWalk(arcs, p) && p[0] == a && p[|p|-1] == b;
    var i := 0;
    ReachSelf(arcs', f(a));
    while i < |p| - 1
      invariant 0 <= i < |p| && Reach(arcs', f(a), f(p[i]))
    {
      assert Linked(arcs, p[i], p[i+1]);
      ReachTransitive(arcs', f(a), f(p[i]), f(p[i+1]));
      i := i + 1;
    }
  }

  /** The first arc of a walk between two different nodes. */
  lemma ReachFirstArc<L>(arcs: set<Arc<L>>, a: string, b: string) returns (e: Arc<L>)
    requires Reach(arcs, a, b) && a != b
    ensures e in arcs && e.src == a && Reach(arcs, e.dst, b)
  {
    var p :| IsWalk(arcs, p) && p[0] == a && p[|p|-1] == b;
    assert Linked(arcs, p[0], p[1]);
    e :| e in arcs && e.src == p[0] && e.dst == p[1];
    var q := p[1..];
    assert IsWalk(arcs, q) && q[0] == e.dst && q[|q|-1] == b;
  }

  // ----- cycles

  lemma CycleThroughArc<L>(arcs: set<Arc<L>>, e: Arc<L>)
    requires e in arcs && Reach(arcs, e.dst, e.src)
    ensures Cyclic(arcs)
  {
    var p :| IsWalk(arcs, p) && p[0] == e.dst && p[|p|-1] == e.src;
    var q := [e.src] + p;
    assert Linked(arcs, q[0], q[1]);
    assert IsWalk(arcs, q) && q[0] == q[|q|-1];
  }

  /** A numbering that grows along every arc rules out cycles. */
  lemma RankedIsAcyclic<L>(arcs: set<Arc<L>>, rank: string -> int)
    requires forall e :: e in arcs ==> rank(e.src) < rank(e.dst)
    ensures !Cyclic(arcs)
  {
    if Cyclic(arcs) {
      var p :| IsWalk(arcs, p) && |p| >= 2 && p[0] == p[|p|-1];
      var i := 1;
      assert Linked(arcs, p[0], p[1]);
      while i < |p| - 1
        invariant 1 <= i < |p| && rank(p[0]) < rank(p[i])
      {
        assert Linked(arcs, p[i], p[i+1]);
        i := i + 1;
      }
    }
  }

  lemma {:induction false} Pigeonhole(p: seq<string>, s: set<string>) returns (i: nat, j: nat)
    requires |p| > |s| && forall x :: x in p ==> x in s
    ensures i < j < |p| && p[i] == p[j]
  {
    var last := p[|p|-1];
    if k :| 0 <= k < |p| - 1 && p[k] == last {
      i, j := k, |p| - 1;
    } else {
      assert last in s;
      assert |s - {last}| == |s| - 1;
      i, j := Pigeonhole(p[..|p|-1], s - {last});
    }
  }

  ghost predicate HasPredecessor<L>(arcs: set<Arc<L>>, s: set<string>, n: string) {
    exists e :: e in arcs && e.src in s && e.dst == n
  }

  lemma {:induction false} AncestryOfLength<L>(arcs: set<Arc<L>>, s: set<string>, k: nat) returns (p: seq<string>)
    requires s != {} && forall n :: n in s ==> HasPredecessor(arcs, s, n)
    ensures IsWalk(arcs, p) && |p| == k + 1 && forall x :: x in p ==> x in s
  {
    if k == 0 {
      var n :| n in s;
      p := [n];
    } else {
      var q := AncestryOfLength(arcs, s, k - 1);
      assert q[0] in s;
      assert HasPredecessor(arcs, s, q[0]);
      var e :| e in arcs && e.src in s && e.dst == q[0];
      p := [e.src] + q;
      assert Linked(arcs, p[0], p[1]);
      forall i | 0 < i < |p| ensures Linked(arcs, p[i-1], p[i]) {
        if i > 1 { assert p[i] == q[i-1] && p[i-1] == q[i-2]; }
      }
    }
  }

  /** If every member of a nonempty finite set has a predecessor in the set, there is a cycle. */
  lemma EndlessAncestryIsCyclic<L>(arcs: set<Arc<L>>, s: set<string>)
    requires s != {} && forall n :: n in s ==> HasPredecessor(arcs, s, n)
    ensures Cyclic(arcs)
  {
    var p := AncestryOfLength(arcs, s, |s|);
    var i, j := Pigeonhole(p, s);
    var q := p[i..j+1];
    forall k | 0 < k < |q| ensures Linked(arcs, q[k-1], q[k]) {
      assert q[k] == p[i+k] && q[k-1] == p[i+k-1];
    }
    assert IsWalk(arcs, q) && |q| >= 2 && q[0] == q[|q|-1];
  }

  function Reversed<L(==)>(arcs: set<Arc<L>>): set<Arc<L>> {
    set e | e in arcs :: Arc(e.dst, e.src, e.tag)
  }

  lemma ReversedCycle<L>(arcs: set<Arc<L>>)
    requires Cyclic(Reversed(arcs))
    ensures Cyclic(arcs)
  {
    var p :| IsWalk(Reversed(arcs), p) && |p| >= 2 && p[0] == p[|p|-1];
    var q := seq(|p|, i requires 0 <= i < |p| => p[|p| - 1 - i]);
    forall i | 0 < i < |q| ensures Linked(arcs, q[i-1], q[i]) {
      assert Linked(Reversed(arcs), p[|p| - 1 - i], p[|p| - i]);
      var e :| e in Reversed(arcs) && e.src == p[|p| - 1 - i] && e.dst == p[|p| - i];
      var d :| d in arcs && Arc(d.dst, d.src, d.tag) == e;
      assert d.src == q[i-1] && d.dst == q[i];
    }
    assert IsWalk(arcs, q);
  }

  // ----- topological orders

  predicate Distinct(q: seq<string>) {
    forall i, j :: 0 <= i < j < |q| ==> q[i] != q[j]
  }

  function Elements(q: seq<string>): set<string> {
    set x | x in q
  }

  lemma {:induction false} DistinctSize(q: seq<string>)
    ensures |Elements(q)| <= |q|
    ensures |Elements(q)| == |q| <==> Distinct(q)
  {
    if q != [] {
      var init, last := q[..|q|-1], q[|q|-1];
      DistinctSize(init);
      assert Elements(q) == Elements(init) + {last};
      if last in Elements(init) {
        var k :| 0 <= k < |init| && init[k] == last;
        assert q[k] == q[|q|-1];
        assert Elements(q) == Elements(init);
      }
    }
  }

  /** Each node listed once, and after the source of each arc into it. */
  ghost predicate IsTopologicalPrefix<L>(arcs: set<Arc<L>>, q: seq<string>) {
    && Distinct(q)
    && forall e, i {:trigger e in arcs, q[i]} :: e in arcs && 0 <= i < |q| && e.dst == q[i] ==> e.src in q[..i]
  }

  ghost predicate IsTopologicalOrder<L>(nodes: set<string>, arcs: set<Arc<L>>, q: seq<string>) {
    IsTopologicalPrefix(arcs, q) && Elements(q) == nodes
  }

  function Position(q: seq<string>, x: string): (i: int)
    ensures x in q ==> 0 <= i < |q| && q[i] == x
  {
    if q == [] then 0 else if q[0] == x then 0 else 1 + Position(q[1..], x)
  }

  lemma OrderedIsAcyclic<L>(nodes: set<string>, arcs: set<Arc<L>>, q: seq<string>)
    requires Closed(nodes, arcs) && IsTopologicalOrder(nodes, arcs, q)
    ensures !Cyclic(arcs)
    ensures forall e :: e in arcs ==> Position(q, e.src) < Position(q, e.dst)
  {
    forall e | e in arcs ensures Position(q, e.src) < Position(q, e.dst) {
      assert e.dst in nodes && e.src in nodes;
      var i := Position(q, e.dst);
      assert e.src in q[..i];
    }
    RankedIsAcyclic(arcs, x => Position(q, x));
  }

  /** The arcs that start in one of the nodes. */
  function Leaving<L(==)>(nodes: set<string>, arcs: set<Arc<L>>): set<Arc<L>> {
    set e | e in arcs && e.src in nodes
  }

  function Sources<L(==)>(nodes: set<string>, arcs: set<Arc<L>>): set<string> {
    set n | n in nodes && forall e :: e in arcs && e.dst == n ==> e.src !in nodes
  }

  lemma SourceExists<L>(nodes: set<string>, arcs: set<Arc<L>>)
    requires nodes != {} && !Cyclic(arcs)
    ensures Sources(nodes, arcs) != {}
  {
    if Sources(nodes, arcs) == {} {
      forall n | n in nodes ensures HasPredecessor(arcs, nodes, n) {
        assert n !in Sources(nodes, arcs);
      }
      EndlessAncestryIsCyclic(arcs, nodes);
    }
  }

  /** Repeatedly take the least node without a remaining predecessor. */
  ghost function LeastFirst<L>(nodes: set<string>, arcs: set<Arc<L>>): (q: seq<string>)
    ensures forall x :: x in q ==> x in nodes
  {
    if Sources(nodes, arcs) == {} then []
    else var m := Least(Sources(nodes, arcs)); [m] + LeastFirst(nodes - {m}, arcs)
  }

  lemma {:induction false} LeastFirstDistinct<L>(nodes: set<string>, arcs: set<Arc<L>>)
    ensures Distinct(LeastFirst(nodes, arcs))
  {
    if Sources(nodes, arcs) != {} {
      LeastFirstDistinct(nodes - {Least(Sources(nodes, arcs))}, arcs);
    }
  }

  lemma {:induction false} LeastFirstRespectsArcs<L>(nodes: set<string>, arcs: set<Arc<L>>, e: Arc<L>, i: nat)
    requires e in arcs && e.src in nodes
    requires i < |LeastFirst(nodes, arcs)| && LeastFirst(nodes, arcs)[i] == e.dst
    ensures e.src in LeastFirst(nodes, arcs)[..i]
  {
    var m := Least(Sources(nodes, arcs));
    var q := LeastFirst(nodes - {m}, arcs);
    assert LeastFirst(nodes, arcs) == [m] + q;
    assert m in Sources(nodes, arcs);
    if i == 0 {
    } else if e.src == m {
      assert ([m] + q)[..i][0] == m;
    } else {
      LeastFirstRespectsArcs(nodes - {m}, arcs, e, i - 1);
      assert ([m] + q)[..i] == [m] + q[..i-1];
    }
  }

  lemma {:induction false} LeastFirstCovers<L>(nodes: set<string>, arcs: set<Arc<L>>)
    requires !Cyclic(arcs)
    ensures Elements(LeastFirst(nodes, arcs)) == nodes
  {
    if nodes != {} {
      SourceExists(nodes, arcs);
      var m := Least(Sources(nodes, arcs));
      LeastFirstCovers(nodes - {m}, arcs);
      assert Elements(LeastFirst(nodes, arcs)) == {m} + Elements(LeastFirst(nodes - {m}, arcs));
    }
  }

  /** The procedure lists every node exactly when there is no cycle. */
  lemma LeastFirstDecidesCycles<L>(nodes: set<string>, arcs: set<Arc<L>>)
    requires Closed(nodes, arcs)
    ensures IsTopologicalPrefix(arcs, LeastFirst(nodes, arcs))
    ensures |LeastFirst(nodes, arcs)| != |nodes| <==> Cyclic(arcs)
    ensures !Cyclic(arcs) ==> IsTopologicalOrder(nodes, arcs, LeastFirst(nodes, arcs))
  {
    var q := LeastFirst(nodes, arcs);
    LeastFirstDistinct(nodes, arcs);
    forall e, i | e in arcs && 0 <= i < |q| && e.dst == q[i] ensures e.src in q[..i] {
      LeastFirstRespectsArcs(nodes, arcs, e, i);
    }
    DistinctSize(q);
    if !Cyclic(arcs) {
      LeastFirstCovers(nodes, arcs);
    } else if |q| == |nodes| {
      EqualBySize(Elements(q), nodes);
      OrderedIsAcyclic(nodes, arcs, q);
    }
  }

  /** Dictionary order on lists of identifiers. */
  predicate NotAfter(p: seq<string>, q: seq<string>) {
    p == [] || (q != [] && (Below(p[0], q[0]) || (p[0] == q[0] && NotAfter(p[1..], q[1..]))))
  }

  /** No topological order comes before the one that takes the least available node each time. */
  lemma {:induction false} LeastFirstIsLeast<L>(nodes: set<string>, arcs: set<Arc<L>>, q: seq<string>)
    requires Distinct(q) && Elements(q) == nodes
    requires forall e, i {:trigger e in arcs, q[i]} ::
               e in arcs && e.src in nodes && 0 <= i < |q| && e.dst == q[i] ==> e.src in q[..i]
    ensures NotAfter(LeastFirst(nodes, arcs), q)
  {
    if Sources(nodes, arcs) != {} {
      var m := Least(Sources(nodes, arcs));
      assert q != [] by { assert m in Elements(q); }
      assert q[0] in Sources(nodes, arcs);
      if q[0] == m {
        var rest := q[1..];
        assert Elements(rest) == nodes - {m} by {
          forall x | x in nodes && x != m ensures x in rest {
            var i := Position(q, x);
            assert rest[i-1] == x;
          }
        }
        forall e, i | e in arcs && e.src in nodes - {m} && 0 <= i < |rest| && e.dst == rest[i]
          ensures e.src in rest[..i]
        {
          assert rest[i] == q[i+1];
          assert e.src in q[..i+1];
          assert q[..i+1] == [m] + rest[..i];
        }
        LeastFirstIsLeast(nodes - {m}, arcs, rest);
      }
    }
  }
}
