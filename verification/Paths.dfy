/** Paths: lists of distinct nodes in which each is joined to the next. */
module Paths {
  import opened Orders
  import opened Digraph

  /** The arcs join each node to the next one, and nothing else. */
  ghost predicate IsPath<L>(q: seq<string>, arcs: set<Arc<L>>) {
    && q != [] && Distinct(q)
    && (forall e :: e in arcs ==> exists i {:trigger q[i]} :: 0 <= i < |q| - 1 && e.src == q[i] && e.dst == q[i+1])
    && (forall i, j :: 0 <= i < j < |q| && j == i + 1 ==> Linked(arcs, q[i], q[j]))
  }

  predicate Proper<L(==)>(nodes: set<string>, arcs: set<Arc<L>>) {
    forall e :: e in arcs ==> e.src in nodes && e.dst in nodes && e.src != e.dst
  }

  lemma PathStep<L>(q: seq<string>, arcs: set<Arc<L>>, e: Arc<L>) returns (i: nat)
    requires IsPath(q, arcs) && e in arcs
    ensures i < |q| - 1 && e.src == q[i] && e.dst == q[i+1]
    ensures Position(q, e.src) == i && Position(q, e.dst) == i + 1
  {
    i :| 0 <= i < |q| - 1 && e.src == q[i] && e.dst == q[i+1];
    assert e.src in q && e.dst in q;
  }

  lemma {:induction false} PathReach<L>(q: seq<string>, arcs: set<Arc<L>>, i: nat, j: nat)
    requires IsPath(q, arcs) && i <= j < |q|
    ensures Reach(arcs, q[i], q[j])
    decreases j - i
  {
    if i == j {
      ReachSelf(arcs, q[i]);
    } else {
      PathReach(q, arcs, i, j - 1);
      PathLink(q, arcs, j - 1);
      OneArcFurther(arcs, q[i], q[j-1], q[j]);
    }
  }

  lemma PathLink<L>(q: seq<string>, arcs: set<Arc<L>>, i: nat)
    requires IsPath(q, arcs) && i + 1 < |q|
    ensures Linked(arcs, q[i], q[i+1])
  {}

  lemma OneArcFurther<L>(arcs: set<Arc<L>>, a: string, b: string, c: string)
    requires Reach(arcs, a, b) && Linked(arcs, b, c)
    ensures Reach(arcs, a, c)
  {
    ReachArc(arcs, b, c);
    ReachTransitive(arcs, a, b, c);
  }

  lemma PathIsAcyclic<L>(q: seq<string>, arcs: set<Arc<L>>)
    requires IsPath(q, arcs)
    ensures Proper(Elements(q), arcs) && !Cyclic(arcs)
  {
    forall e | e in arcs
      ensures e.src in q && e.dst in q && e.src != e.dst && Position(q, e.src) < Position(q, e.dst)
    {
      var i := PathStep(q, arcs, e);
    }
    RankedIsAcyclic(arcs, x => Position(q, x));
  }

  lemma LaterIsNoSource<L>(q: seq<string>, arcs: set<Arc<L>>, i: nat, j: nat)
    requires IsPath(q, arcs) && i < j < |q|
    ensures q[j] !in Sources(Elements(q[i..]), arcs)
  {
    assert Linked(arcs, q[j-1], q[j]);
    assert q[i..][j-1-i] == q[j-1];
  }

  lemma FirstIsSource<L>(q: seq<string>, arcs: set<Arc<L>>, i: nat)
    requires IsPath(q, arcs) && i < |q|
    ensures q[i] in Sources(Elements(q[i..]), arcs)
  {
    var left := Elements(q[i..]);
    assert q[i..][0] == q[i];
    forall e | e in arcs && e.dst == q[i] ensures e.src !in left {
      var k := PathStep(q, arcs, e);
      assert forall j :: i <= j < |q| ==> q[j] != q[k];
    }
  }

  lemma PathSources<L>(q: seq<string>, arcs: set<Arc<L>>, i: nat)
    requires IsPath(q, arcs) && i < |q|
    ensures Sources(Elements(q[i..]), arcs) == {q[i]}
  {
    var left := Elements(q[i..]);
    forall n | n in left && n != q[i] ensures n !in Sources(left, arcs) {
      var j :| i < j < |q| && q[j] == n;
      LaterIsNoSource(q, arcs, i, j);
    }
    FirstIsSource(q, arcs, i);
  }

  lemma SuffixElements(q: seq<string>, i: nat)
    requires Distinct(q) && i < |q|
    ensures q[i..] == [q[i]] + q[i+1..] && Elements(q[i..]) - {q[i]} == Elements(q[i+1..])
  {
    assert q[i..] == [q[i]] + q[i+1..];
  }

  lemma {:induction false} SuffixIsItsOwnOrder<L>(q: seq<string>, arcs: set<Arc<L>>, i: nat)
    requires IsPath(q, arcs) && i <= |q|
    ensures LeastFirst(Elements(q[i..]), arcs) == q[i..]
    decreases |q| - i
  {
    if i < |q| {
      PathSources(q, arcs, i);
      SuffixElements(q, i);
      SuffixIsItsOwnOrder(q, arcs, i + 1);
      OneSource(Elements(q[i..]), arcs, q[i]);
    } else {
      assert Elements(q[i..]) == {};
    }
  }

  lemma OneSource<L>(left: set<string>, arcs: set<Arc<L>>, n: string)
    requires Sources(left, arcs) == {n}
    ensures LeastFirst(left, arcs) == [n] + LeastFirst(left - {n}, arcs)
  {}

  /** Taking the least node without predecessors first lists a path from its start to its end. */
  lemma PathIsItsOwnOrder<L>(q: seq<string>, arcs: set<Arc<L>>)
    requires IsPath(q, arcs)
    ensures LeastFirst(Elements(q), arcs) == q
  {
    assert q[0..] == q;
    SuffixIsItsOwnOrder(q, arcs, 0);
  }
}
