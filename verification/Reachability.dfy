/** Breadth-first search over the arcs, in either direction. */
module Reachability {
  import opened Orders
  import opened Digraph

  ghost predicate Joined<L>(arcs: set<Arc<L>>, forward: bool, a: string, b: string) {
    if forward then Reach(arcs, a, b) else Reach(arcs, b, a)
  }

  /** b can be reached from one of the starts, against the arcs when `forward` is off. */
  ghost predicate JoinedToAny<L>(arcs: set<Arc<L>>, forward: bool, starts: set<string>, b: string) {
    exists s :: s in starts && Joined(arcs, forward, s, b)
  }

  function Near<L>(e: Arc<L>, forward: bool): string { if forward then e.src else e.dst }
  function Far<L>(e: Arc<L>, forward: bool): string { if forward then e.dst else e.src }

  function Neighbours<L(==)>(arcs: set<Arc<L>>, forward: bool, n: string): set<string> {
    set e | e in arcs && Near(e, forward) == n :: Far(e, forward)
  }

  lemma JoinedFurther<L>(arcs: set<Arc<L>>, forward: bool, starts: set<string>, e: Arc<L>)
    requires e in arcs && JoinedToAny(arcs, forward, starts, Near(e, forward))
    ensures JoinedToAny(arcs, forward, starts, Far(e, forward))
  {
    var s :| s in starts && Joined(arcs, forward, s, Near(e, forward));
    ReachArc(arcs, e.src, e.dst);
    if forward {
      ReachTransitive(arcs, s, e.src, e.dst);
    } else {
      ReachTransitive(arcs, e.src, e.dst, s);
    }
    assert Joined(arcs, forward, s, Far(e, forward));
  }

  /** A set that holds the starts and all neighbours of its members holds everything joined to
      them. */
  lemma ClosedSetIsComplete<L>(nodes: set<string>, arcs: set<Arc<L>>, forward: bool, starts: set<string>,
                               seen: set<string>, b: string)
    requires Closed(nodes, arcs) && starts <= seen <= nodes
    requires forall n :: n in seen ==> Neighbours(arcs, forward, n) <= seen
    requires JoinedToAny(arcs, forward, starts, b)
    ensures b in seen
  {
    var s :| s in starts && Joined(arcs, forward, s, b);
    if forward {
      forall e | e in arcs && e.src in seen ensures e.dst in seen {
        assert e.dst in Neighbours(arcs, forward, e.src);
      }
      ReachStaysInside(arcs, seen, s, b);
    } else if b !in seen {
      // Seen from b, the unseen nodes can only be left by entering `seen` backwards.
      var outside := nodes - seen + {b};
      forall e | e in arcs && e.src in outside ensures e.dst in outside {
        assert e.src in Neighbours(arcs, forward, e.dst);
      }
      ReachStaysInside(arcs, outside, b, s);
    }
  }

  /** The inner loop: unseen neighbours of `current` are seen and queued. */
  method Expand<L(==)>(arcs: set<Arc<L>>, forward: bool, current: string, seen: set<string>, ready: seq<string>)
    returns (seen': set<string>, ready': seq<string>)
    ensures seen' == seen + Neighbours(arcs, forward, current)
    ensures Elements(ready') == Elements(ready) + (seen' - seen)
    ensures seen' == seen ==> ready' == ready
  {
    var todo := set e | e in arcs && Near(e, forward) == current;
    ghost var all := todo;
    seen', ready' := seen, ready;
    while todo != {}
      invariant todo <= all
      invariant seen' == seen + (set e | e in all - todo :: Far(e, forward))
      invariant Elements(ready') == Elements(ready) + (seen' - seen)
      invariant seen' == seen ==> ready' == ready
      decreases todo
    {
      var e :| e in todo;
      todo := todo - {e};
      var neighbour := Far(e, forward);
      assert all - todo == (all - (todo + {e})) + {e};
      if neighbour !in seen' {
        seen' := seen' + {neighbour};
        assert Elements(ready' + [neighbour]) == Elements(ready') + {neighbour};
        ready' := ready' + [neighbour];
      }
    }
    assert all - todo == all;
  }

  ghost predicate Searching<L>(nodes: set<string>, arcs: set<Arc<L>>, forward: bool, starts: set<string>,
                               seen: set<string>, ready: seq<string>) {
    && starts <= seen <= nodes && Elements(ready) <= seen
    && (forall b :: b in seen ==> JoinedToAny(arcs, forward, starts, b))
    && (forall n :: n in seen - Elements(ready) ==> Neighbours(arcs, forward, n) <= seen)
  }

  lemma SearchAdvances<L>(nodes: set<string>, arcs: set<Arc<L>>, forward: bool, starts: set<string>,
                          seen: set<string>, ready: seq<string>, seen': set<string>, ready': seq<string>)
    requires Closed(nodes, arcs) && Searching(nodes, arcs, forward, starts, seen, ready) && ready != []
    requires seen' == seen + Neighbours(arcs, forward, ready[0])
    requires Elements(ready') == Elements(ready[1..]) + (seen' - seen)
    ensures Searching(nodes, arcs, forward, starts, seen', ready')
    ensures seen' != seen ==> nodes - seen' < nodes - seen
  {
    assert Elements(ready) == {ready[0]} + Elements(ready[1..]);
    forall b | b in Neighbours(arcs, forward, ready[0]) ensures b in nodes && JoinedToAny(arcs, forward, starts, b) {
      var e :| e in arcs && Near(e, forward) == ready[0] && Far(e, forward) == b;
      JoinedFurther(arcs, forward, starts, e);
    }
  }

  /** The worklist search: exactly the nodes joined to a start. */
  method Reachable<L(==)>(ghost nodes: set<string>, starts: set<string>, arcs: set<Arc<L>>, forward: bool)
    returns (seen: set<string>)
    requires Closed(nodes, arcs) && starts <= nodes
    ensures seen <= nodes
    ensures forall b :: b in seen <==> JoinedToAny(arcs, forward, starts, b)
  {
    seen := starts;
    var ready := Sort(starts);
    SearchStarts(nodes, arcs, forward, starts);
    while ready != []
      invariant Searching(nodes, arcs, forward, starts, seen, ready)
      decreases nodes - seen, |ready|
    {
      var seen', ready' := Expand(arcs, forward, ready[0], seen, ready[1..]);
      SearchAdvances(nodes, arcs, forward, starts, seen, ready, seen', ready');
      seen, ready := seen', ready';
    }
    SearchEnds(nodes, arcs, forward, starts, seen);
  }

  lemma SearchEnds<L>(nodes: set<string>, arcs: set<Arc<L>>, forward: bool, starts: set<string>, seen: set<string>)
    requires Closed(nodes, arcs) && Searching(nodes, arcs, forward, starts, seen, [])
    ensures seen <= nodes
    ensures forall b :: b in seen <==> JoinedToAny(arcs, forward, starts, b)
  {
    assert Elements([]) == {};
    forall b | JoinedToAny(arcs, forward, starts, b) ensures b in seen {
      ClosedSetIsComplete(nodes, arcs, forward, starts, seen, b);
    }
  }

  lemma SearchStarts<L>(nodes: set<string>, arcs: set<Arc<L>>, forward: bool, starts: set<string>)
    requires Closed(nodes, arcs) && starts <= nodes
    ensures Searching(nodes, arcs, forward, starts, starts, Sorted(starts))
  {
    assert Elements(Sorted(starts)) == starts;
    forall s | s in starts ensures JoinedToAny(arcs, forward, starts, s) {
      ReachSelf(arcs, s);
      assert Joined(arcs, forward, s, s);
    }
  }
}
