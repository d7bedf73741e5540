/** Replacing a node by two nodes joined by one arc: what led to the node now leads to `entry`, what
    left it now leaves `exit`. Both graph rewrites have this shape: a reasoning node becomes two
    stages, and a target gets an aggregate in front of it (there, `exit` is the target itself). */
module NodeExpansion {
  import opened Digraph
  import opened CycleDetection

  datatype Expansion<L> = Expansion(x: string, entry: string, exit: string, bridge: L)
  {
    function Into(n: string): string { if n == x then entry else n }
    function OutOf(n: string): string { if n == x then exit else n }
    /** The node that a node of the expanded graph stands for. */
    function Back(n: string): string { if n == entry || n == exit then x else n }
    function Bridge(): Arc<L> { Arc(entry, exit, bridge) }
    function Moved(e: Arc<L>): Arc<L> { Arc(OutOf(e.src), Into(e.dst), e.tag) }
  }

  function MoveAll<L(==)>(arcs: set<Arc<L>>, s: Expansion<L>): set<Arc<L>> {
    set e | e in arcs :: s.Moved(e)
  }

  function Expand<L(==)>(arcs: set<Arc<L>>, s: Expansion<L>): set<Arc<L>> {
    MoveAll(arcs, s) + {s.Bridge()}
  }

  function ExpandNodes(nodes: set<string>, x: string, entry: string, exit: string): set<string> {
    nodes - {x} + {entry, exit}
  }

  /** The new names are new; only `exit` may reuse the name of the node that is replaced. */
  predicate Fresh<L>(nodes: set<string>, s: Expansion<L>) {
    s.x in nodes && s.entry !in nodes && s.exit !in nodes - {s.x} && s.entry != s.exit
  }

  predicate Expandable<L(==)>(nodes: set<string>, arcs: set<Arc<L>>, s: Expansion<L>) {
    Closed(nodes, arcs) && Fresh(nodes, s) && forall e :: e in arcs ==> e.src != e.dst
  }

  lemma MovedIsInjective<L>(nodes: set<string>, arcs: set<Arc<L>>, s: Expansion<L>, d: Arc<L>, e: Arc<L>)
    requires Expandable(nodes, arcs, s) && d in arcs && e in arcs && s.Moved(d) == s.Moved(e)
    ensures d == e
  {}

  lemma StaysClosed<L>(nodes: set<string>, arcs: set<Arc<L>>, s: Expansion<L>)
    requires Closed(nodes, arcs) && s.x in nodes
    ensures Closed(ExpandNodes(nodes, s.x, s.entry, s.exit), Expand(arcs, s))
    ensures Expandable(nodes, arcs, s) ==> forall e :: e in Expand(arcs, s) ==> e.src != e.dst
  {}

  // ----- reachability

  lemma ArcsBecomeWalks<L>(nodes: set<string>, arcs: set<Arc<L>>, s: Expansion<L>, e: Arc<L>)
    requires Expandable(nodes, arcs, s) && e in arcs
    ensures Reach(Expand(arcs, s), s.Into(e.src), s.Into(e.dst))
    ensures Reach(Expand(arcs, s), s.OutOf(e.src), s.OutOf(e.dst))
  {
    var arcs' := Expand(arcs, s);
    assert s.Moved(e) in MoveAll(arcs, s);
    ReachArc(arcs', s.OutOf(e.src), s.Into(e.dst));
    Crossing(arcs, s, e.src);
    Crossing(arcs, s, e.dst);
    ReachTransitive(arcs', s.Into(e.src), s.OutOf(e.src), s.Into(e.dst));
    ReachTransitive(arcs', s.OutOf(e.src), s.Into(e.dst), s.OutOf(e.dst));
  }

  lemma Crossing<L>(arcs: set<Arc<L>>, s: Expansion<L>, n: string)
    ensures Reach(Expand(arcs, s), s.Into(n), s.OutOf(n))
  {
    if n == s.x {
      assert s.Bridge() in Expand(arcs, s);
      ReachArc(Expand(arcs, s), s.entry, s.exit);
    } else {
      ReachSelf(Expand(arcs, s), n);
    }
  }

  lemma WalksComeBack<L>(nodes: set<string>, arcs: set<Arc<L>>, s: Expansion<L>, a: string, b: string)
    requires Expandable(nodes, arcs, s) && Reach(Expand(arcs, s), a, b)
    ensures Reach(arcs, s.Back(a), s.Back(b))
  {
    forall e | e in Expand(arcs, s) ensures Reach(arcs, s.Back(e.src), s.Back(e.dst)) {
      if e == s.Bridge() {
        ReachSelf(arcs, s.x);
      } else {
        var d :| d in arcs && s.Moved(d) == e;
        ReachArc(arcs, d.src, d.dst);
      }
    }
    ReachMapped(Expand(arcs, s), arcs, n => s.Back(n), a, b);
  }

  /** Reachability between old nodes is exactly reachability between what replaces them, whichever
      side of the replaced node is taken. */
  lemma ReachPreserved<L>(nodes: set<string>, arcs: set<Arc<L>>, s: Expansion<L>, a: string, b: string)
    requires Expandable(nodes, arcs, s) && a in nodes && b in nodes
    ensures Reach(arcs, a, b) <==> Reach(Expand(arcs, s), s.Into(a), s.Into(b))
    ensures Reach(arcs, a, b) <==> Reach(Expand(arcs, s), s.OutOf(a), s.OutOf(b))
    ensures Reach(arcs, a, b) <==> Reach(Expand(arcs, s), s.Into(a), s.OutOf(b))
  {
    var arcs' := Expand(arcs, s);
    if Reach(arcs, a, b) {
      forall e | e in arcs
        ensures Reach(arcs', s.Into(e.src), s.Into(e.dst)) && Reach(arcs', s.OutOf(e.src), s.OutOf(e.dst))
      {
        ArcsBecomeWalks(nodes, arcs, s, e);
      }
      ReachMapped(arcs, arcs', n => s.Into(n), a, b);
      ReachMapped(arcs, arcs', n => s.OutOf(n), a, b);
      Crossing(arcs, s, b);
      ReachTransitive(arcs', s.Into(a), s.Into(b), s.OutOf(b));
    }
    if Reach(arcs', s.Into(a), s.Into(b)) { WalksComeBack(nodes, arcs, s, s.Into(a), s.Into(b)); }
    if Reach(arcs', s.OutOf(a), s.OutOf(b)) { WalksComeBack(nodes, arcs, s, s.OutOf(a), s.OutOf(b)); }
    if Reach(arcs', s.Into(a), s.OutOf(b)) { WalksComeBack(nodes, arcs, s, s.Into(a), s.OutOf(b)); }
  }

  // ----- cycles

  /** A cycle is an arc whose end leads back to its start. */
  lemma CycleHasArc<L>(arcs: set<Arc<L>>) returns (e: Arc<L>)
    requires Cyclic(arcs)
    ensures e in arcs && Reach(arcs, e.dst, e.src)
  {
    var p :| IsWalk(arcs, p) && |p| >= 2 && p[0] == p[|p|-1];
    assert Linked(arcs, p[0], p[1]);
    e :| e in arcs && e.src == p[0] && e.dst == p[1];
    var q := p[1..];
    assert IsWalk(arcs, q) && q[0] == e.dst && q[|q|-1] == e.src;
  }

  lemma CyclesPreserved<L>(nodes: set<string>, arcs: set<Arc<L>>, s: Expansion<L>)
    requires Expandable(nodes, arcs, s)
    ensures Cyclic(arcs) <==> Cyclic(Expand(arcs, s))
  {
    var arcs' := Expand(arcs, s);
    if Cyclic(arcs) {
      var e := CycleHasArc(arcs);
      ReachPreserved(nodes, arcs, s, e.dst, e.src);
      assert s.Moved(e) in MoveAll(arcs, s);
      CycleThroughArc(arcs', s.Moved(e));
    }
    if Cyclic(arcs') {
      var e := CycleHasArc(arcs');
      if e == s.Bridge() {
        e := ReachFirstArc(arcs', s.exit, s.entry);
        assert e != s.Bridge();
        WalksComeBack(nodes, arcs, s, e.dst, s.entry);
      } else {
        WalksComeBack(nodes, arcs, s, e.dst, e.src);
      }
      var d :| d in arcs && s.Moved(d) == e;
      CycleThroughArc(arcs, d);
    }
  }

  // ----- counting arcs

  lemma {:induction false} MoveAllSize<L>(nodes: set<string>, arcs: set<Arc<L>>, s: Expansion<L>)
    requires Expandable(nodes, arcs, s)
    ensures |MoveAll(arcs, s)| == |arcs|
  {
    if arcs != {} {
      var e :| e in arcs;
      MoveAllSize(nodes, arcs - {e}, s);
      forall d | d in arcs - {e} ensures s.Moved(d) != s.Moved(e) {
        if s.Moved(d) == s.Moved(e) { MovedIsInjective(nodes, arcs, s, d, e); }
      }
      assert MoveAll(arcs, s) == MoveAll(arcs - {e}, s) + {s.Moved(e)};
    }
  }

  lemma BridgeIsNew<L>(nodes: set<string>, arcs: set<Arc<L>>, s: Expansion<L>)
    requires Expandable(nodes, arcs, s)
    ensures s.Bridge() !in MoveAll(arcs, s)
  {
    forall d | d in arcs ensures s.Moved(d) != s.Bridge() {}
  }

  /** Every expansion adds exactly one arc. */
  lemma OneMoreArc<L>(nodes: set<string>, arcs: set<Arc<L>>, s: Expansion<L>)
    requires Expandable(nodes, arcs, s)
    ensures |Expand(arcs, s)| == |arcs| + 1
  {
    MoveAllSize(nodes, arcs, s);
    BridgeIsNew(nodes, arcs, s);
  }

  /** The arcs into and out of every node, before and after. */
  lemma ArcsAround<L>(nodes: set<string>, arcs: set<Arc<L>>, s: Expansion<L>, n: string)
    requires Expandable(nodes, arcs, s) && n in nodes
    ensures In(Expand(arcs, s), s.Into(n)) == MoveAll(In(arcs, n), s)
    ensures Out(Expand(arcs, s), s.OutOf(n)) == MoveAll(Out(arcs, n), s)
    ensures In(Expand(arcs, s), s.exit) == {s.Bridge()}
    ensures Out(Expand(arcs, s), s.entry) == {s.Bridge()}
  {}

  lemma SubsetIsExpandable<L>(nodes: set<string>, arcs: set<Arc<L>>, some: set<Arc<L>>, s: Expansion<L>)
    requires Expandable(nodes, arcs, s) && some <= arcs
    ensures Expandable(nodes, some, s)
    ensures |MoveAll(some, s)| == |some|
  {
    MoveAllSize(nodes, some, s);
  }
}
