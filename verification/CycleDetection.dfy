/** The cycle detectors that mutate shared state: two removals of nodes without predecessors and two
    depth-first searches. Each decides Digraph.Cyclic, so they agree on every closed graph. */
module CycleDetection {
  import opened Orders
  import opened Digraph

  function In<L(==)>(arcs: set<Arc<L>>, n: string): set<Arc<L>> {
    set e | e in arcs && e.dst == n
  }

  function Out<L(==)>(arcs: set<Arc<L>>, n: string): set<Arc<L>> {
    set e | e in arcs && e.src == n
  }

  // ----- removal of nodes without predecessors

  ghost predicate CountsIncoming<L>(nodes: set<string>, arcs: set<Arc<L>>, counts: map<string, int>) {
    counts.Keys == nodes && forall n :: n in nodes ==> counts[n] == |In(arcs, n)|
  }

  /** The nodes with no incoming arc among those given. */
  function Unfed<L(==)>(nodes: set<string>, arcs: set<Arc<L>>): set<string> {
    set n | n in nodes && In(arcs, n) == {}
  }

  lemma DropArc<L>(nodes: set<string>, arcs: set<Arc<L>>, e: Arc<L>, counts: map<string, int>)
    requires CountsIncoming(nodes, arcs, counts) && e in arcs && e.dst in nodes
    ensures CountsIncoming(nodes, arcs - {e}, counts[e.dst := counts[e.dst] - 1])
    ensures e.dst !in Unfed(nodes, arcs)
    ensures Unfed(nodes, arcs - {e}) == Unfed(nodes, arcs) + (if counts[e.dst] == 1 then {e.dst} else {})
  {
    assert In(arcs - {e}, e.dst) == In(arcs, e.dst) - {e} && e in In(arcs, e.dst);
    forall n | n != e.dst ensures In(arcs - {e}, n) == In(arcs, n) {}
  }

  /** What the inner loop keeps: `left` still counts, and what became unfed since `pending` is ready. */
  ghost predicate Releasing<L>(nodes: set<string>, pending: set<Arc<L>>, left: set<Arc<L>>, before: seq<string>,
                               counts: map<string, int>, ready: seq<string>) {
    && CountsIncoming(nodes, left, counts) && Distinct(ready) && Unfed(nodes, pending) <= Unfed(nodes, left)
    && Elements(ready) == Elements(before) + (Unfed(nodes, left) - Unfed(nodes, pending))
  }

  lemma ReleaseOne<L>(nodes: set<string>, pending: set<Arc<L>>, left: set<Arc<L>>, before: seq<string>,
                      counts: map<string, int>, ready: seq<string>, e: Arc<L>)
    requires Releasing(nodes, pending, left, before, counts, ready) && e in left && e.dst in nodes
    requires Elements(before) <= Unfed(nodes, pending)
    ensures Releasing(nodes, pending, left - {e}, before, counts[e.dst := counts[e.dst] - 1],
                      if counts[e.dst] == 1 then Appended(ready, e.dst) else ready)
  {
    DropArc(nodes, left, e, counts);
  }

  /** The inner loop of the removal: the arcs out of the node just removed stop counting, and each
      node that loses its last one becomes ready. The proof holds for any order of the arcs. */
  method Release<L(==)>(ghost nodes: set<string>, out: set<Arc<L>>, ghost pending: set<Arc<L>>,
                        counts: map<string, int>, ready: seq<string>)
    returns (counts': map<string, int>, ready': seq<string>)
    requires Closed(nodes, pending) && out <= pending && CountsIncoming(nodes, pending, counts)
    requires Distinct(ready) && Elements(ready) <= Unfed(nodes, pending)
    ensures CountsIncoming(nodes, pending - out, counts')
    ensures Distinct(ready')
    ensures Elements(ready') == Elements(ready) + (Unfed(nodes, pending - out) - Unfed(nodes, pending))
  {
    counts', ready' := counts, ready;
    var rest := out;
    ghost var left := pending;
    while rest != {}
      invariant rest <= out && rest <= left <= pending && left == pending - (out - rest)
      invariant Releasing(nodes, pending, left, ready, counts', ready')
      decreases rest
    {
      var e :| e in rest;
      ReleaseOne(nodes, pending, left, ready, counts', ready', e);
      rest, left := rest - {e}, left - {e};
      counts' := counts'[e.dst := counts'[e.dst] - 1];
      if counts'[e.dst] == 0 {
        ready' := Appended(ready', e.dst);
      }
    }
    assert left == pending - out;
  }

  function Appended(q: seq<string>, x: string): (r: seq<string>)
    ensures r == q + [x]
    ensures Elements(r) == Elements(q) + {x}
    ensures Distinct(q) && x !in Elements(q) ==> Distinct(r)
  {
    q + [x]
  }

  /** What both removals keep: `order` is a topological prefix, and `ready` lists the nodes whose
      predecessors have all been removed. */
  ghost predicate Removing<L>(nodes: set<string>, arcs: set<Arc<L>>, order: seq<string>, ready: seq<string>,
                              counts: map<string, int>) {
    && IsTopologicalPrefix(arcs, order) && Elements(order) <= nodes
    && Distinct(ready) && Elements(ready) == Sources(nodes - Elements(order), arcs)
    && CountsIncoming(nodes, Leaving(nodes - Elements(order), arcs), counts)
  }

  lemma UnfedAreSources<L>(nodes: set<string>, left: set<string>, arcs: set<Arc<L>>)
    requires left <= nodes
    ensures Sources(left, arcs) == Unfed(nodes, Leaving(left, arcs)) * left
  {
    forall n | n in left ensures n in Sources(left, arcs) <==> In(Leaving(left, arcs), n) == {} {
      assert forall e :: e in arcs && e.dst == n && e.src in left ==> e in In(Leaving(left, arcs), n);
    }
  }

  lemma RemovalStarts<L>(nodes: set<string>, arcs: set<Arc<L>>, counts: map<string, int>)
    requires Closed(nodes, arcs) && CountsIncoming(nodes, arcs, counts)
    ensures (set n | n in nodes && counts[n] == 0) == Sources(nodes, arcs)
    ensures Removing(nodes, arcs, [], Sorted(Sources(nodes, arcs)), counts)
  {
    assert Leaving(nodes, arcs) == arcs;
    assert nodes - Elements([]) == nodes;
    UnfedAreSources(nodes, nodes, arcs);
    SortedIsDistinct(Sources(nodes, arcs));
  }

  lemma SortedIsDistinct(s: set<string>)
    ensures Distinct(Sorted(s)) && Elements(Sorted(s)) == s
  {
    SortedAscending(s);
    var q := Sorted(s);
    forall i, j | 0 <= i < j < |q| ensures q[i] != q[j] {
      Trichotomy(q[i], q[j]);
    }
  }

  /** A node all of whose predecessors have been removed may be removed. */
  lemma PrefixGrows<L>(nodes: set<string>, arcs: set<Arc<L>>, order: seq<string>, current: string)
    requires Closed(nodes, arcs) && IsTopologicalPrefix(arcs, order)
    requires current in Sources(nodes - Elements(order), arcs)
    ensures IsTopologicalPrefix(arcs, order + [current])
  {
    var order' := order + [current];
    forall e, i | e in arcs && 0 <= i < |order'| && e.dst == order'[i] ensures e.src in order'[..i] {
      if i == |order| {
        assert e.src in Elements(order);
        assert order'[..i] == order;
      } else {
        assert order'[..i] == order[..i];
      }
    }
  }

  lemma RemovedAreUnfed<L>(nodes: set<string>, arcs: set<Arc<L>>, order: seq<string>)
    requires IsTopologicalPrefix(arcs, order) && Elements(order) <= nodes
    ensures Elements(order) <= Unfed(nodes, Leaving(nodes - Elements(order), arcs))
  {
    forall n | n in Elements(order) ensures In(Leaving(nodes - Elements(order), arcs), n) == {} {
      var i :| 0 <= i < |order| && order[i] == n;
      forall e | e in arcs && e.dst == n ensures e.src in Elements(order) {
        assert e.src in order[..i];
      }
    }
  }

  lemma ReadyAfterRemoval<L>(nodes: set<string>, arcs: set<Arc<L>>, order: seq<string>, current: string)
    requires Closed(nodes, arcs) && IsTopologicalPrefix(arcs, order) && Elements(order) <= nodes
    requires current in Sources(nodes - Elements(order), arcs)
    ensures var left := nodes - Elements(order);
            var pending := Leaving(left, arcs);
            && pending - Out(arcs, current) == Leaving(left - {current}, arcs)
            && Out(arcs, current) <= pending
            && Sources(left - {current}, arcs) ==
                 Sources(left, arcs) - {current} + (Unfed(nodes, pending - Out(arcs, current)) - Unfed(nodes, pending))
  {
    var left := nodes - Elements(order);
    var pending := Leaving(left, arcs);
    assert pending - Out(arcs, current) == Leaving(left - {current}, arcs);
    UnfedAreSources(nodes, left, arcs);
    UnfedAreSources(nodes, left - {current}, arcs);
    RemovedAreUnfed(nodes, arcs, order);
    forall n | n in Unfed(nodes, pending) ensures n in Unfed(nodes, pending - Out(arcs, current)) {
      assert In(pending - Out(arcs, current), n) <= In(pending, n);
    }
  }

  /** One removal: the first ready node leaves the list, and its arcs are released. */
  method Remove<L(==)>(ghost nodes: set<string>, arcs: set<Arc<L>>, ghost order: seq<string>, ready: seq<string>,
                       counts: map<string, int>)
    returns (ready': seq<string>, counts': map<string, int>)
    requires Closed(nodes, arcs) && Removing(nodes, arcs, order, ready, counts) && ready != []
    ensures Removing(nodes, arcs, Appended(order, ready[0]), ready', counts') && |order| < |nodes|
  {
    var current := ready[0];
    ghost var left := nodes - Elements(order);
    assert current in Elements(ready);
    assert Elements(ready[1..]) == Elements(ready) - {current};
    ReadyAfterRemoval(nodes, arcs, order, current);
    UnfedAreSources(nodes, left, arcs);
    counts', ready' := Release(nodes, Out(arcs, current), Leaving(left, arcs), counts, ready[1..]);
    PrefixGrows(nodes, arcs, order, current);
    assert nodes - Elements(Appended(order, current)) == left - {current};
    DistinctSize(order);
    assert nodes == Elements(order) + left;
  }

  lemma RemovalEnds<L>(nodes: set<string>, arcs: set<Arc<L>>, order: seq<string>)
    requires Closed(nodes, arcs) && IsTopologicalPrefix(arcs, order) && Elements(order) <= nodes
    requires Sources(nodes - Elements(order), arcs) == {}
    ensures |order| != |nodes| <==> Cyclic(arcs)
  {
    var left := nodes - Elements(order);
    DistinctSize(order);
    assert nodes == Elements(order) + left;
    if left == {} {
      OrderedIsAcyclic(nodes, arcs, order);
    } else {
      assert Cyclic(arcs) by {
        if !Cyclic(arcs) { SourceExists(left, arcs); }
      }
    }
  }

  /** First-in first-out removal that only counts what it removed. */
  method ContainsCycle<L(==)>(nodes: set<string>, arcs: set<Arc<L>>) returns (found: bool)
    requires Closed(nodes, arcs)
    ensures found <==> Cyclic(arcs)
  {
    var counts := map n | n in nodes :: |In(arcs, n)|;
    RemovalStarts(nodes, arcs, counts);
    var ready := Sort(set n | n in nodes && counts[n] == 0);
    var visited := 0;
    ghost var order: seq<string> := [];
    while ready != []
      invariant Removing(nodes, arcs, order, ready, counts) && visited == |order|
      decreases |nodes| - |order|
    {
      ghost var removed := Appended(order, ready[0]);
      ready, counts := Remove(nodes, arcs, order, ready, counts);
      order, visited := removed, visited + 1;
    }
    assert Elements([]) == {};
    RemovalEnds(nodes, arcs, order);
    found := visited != |nodes|;
  }

  /** Removal that always takes the least ready node. */
  ghost predicate RemovingLeast<L>(nodes: set<string>, arcs: set<Arc<L>>, order: seq<string>, ready: seq<string>) {
    && Elements(ready) == Sources(nodes - Elements(order), arcs)
    && ready == Sorted(Elements(ready))
    && LeastFirst(nodes, arcs) == order + LeastFirst(nodes - Elements(order), arcs)
  }

  lemma LeastRemovalStarts<L>(nodes: set<string>, arcs: set<Arc<L>>)
    ensures RemovingLeast(nodes, arcs, [], Sorted(Sources(nodes, arcs)))
  {
    SortedIsDistinct(Sources(nodes, arcs));
    assert nodes - Elements([]) == nodes;
    assert LeastFirst(nodes, arcs) == [] + LeastFirst(nodes, arcs);
  }

  lemma LeastRemoved<L>(nodes: set<string>, arcs: set<Arc<L>>, order: seq<string>, ready: seq<string>, next: seq<string>)
    requires RemovingLeast(nodes, arcs, order, ready) && ready != []
    requires Elements(next) == Sources(nodes - Elements(order + [ready[0]]), arcs)
    ensures RemovingLeast(nodes, arcs, order + [ready[0]], Sorted(Elements(next)))
  {
    var left := nodes - Elements(order);
    var order' := order + [ready[0]];
    assert Elements(ready) != {} by { assert ready[0] in Elements(ready); }
    assert ready[0] == Least(Sources(left, arcs));
    assert nodes - Elements(order') == left - {ready[0]};
    assert order + LeastFirst(left, arcs) == order' + LeastFirst(left - {ready[0]}, arcs);
    SortedIsDistinct(Elements(next));
  }

  /** Removal from a ready list that is sorted again after every step, recording the order. */
  method TopologicalOrder<L(==)>(nodes: set<string>, arcs: set<Arc<L>>) returns (order: seq<string>, found: bool)
    requires Closed(nodes, arcs)
    ensures order == LeastFirst(nodes, arcs)
    ensures found <==> Cyclic(arcs)
  {
    var counts := map n | n in nodes :: |In(arcs, n)|;
    RemovalStarts(nodes, arcs, counts);
    var ready := Sort(set n | n in nodes && counts[n] == 0);
    LeastRemovalStarts(nodes, arcs);
    order := [];
    while ready != []
      invariant Removing(nodes, arcs, order, ready, counts)
      invariant RemovingLeast(nodes, arcs, order, ready)
      decreases |nodes| - |order|
    {
      var next, counts' := Remove(nodes, arcs, order, ready, counts);
      LeastRemoved(nodes, arcs, order, ready, next);
      SortedIsDistinct(Elements(next));
      order, counts := Appended(order, ready[0]), counts';
      ready := Sort(Elements(next));
    }
    RemovalEnds(nodes, arcs, order);
    found := |order| != |nodes|;
  }

  // ----- depth-first search with three colours

  /** Each finished node comes after everything its arcs lead to. */
  ghost predicate FinishedAfterSuccessors<L>(arcs: set<Arc<L>>, finished: seq<string>) {
    forall e, i {:trigger e in arcs, finished[i]} ::
      e in arcs && 0 <= i < |finished| && e.src == finished[i] ==> e.dst in finished[..i]
  }

  lemma FinishNext<L>(arcs: set<Arc<L>>, finished: seq<string>, node: string)
    requires FinishedAfterSuccessors(arcs, finished)
    requires forall e :: e in Out(arcs, node) ==> e.dst in Elements(finished)
    ensures FinishedAfterSuccessors(arcs, Appended(finished, node))
  {
    var after := finished + [node];
    forall e, i | e in arcs && 0 <= i < |after| && e.src == after[i] ensures e.dst in after[..i] {
      if i == |finished| {
        assert e in Out(arcs, node) && after[..i] == finished;
      } else {
        assert after[..i] == finished[..i];
      }
    }
  }

  lemma PathShortens<L>(arcs: set<Arc<L>>, path: seq<string>, node: string)
    requires Distinct(path + [node]) && IsWalk(arcs, path + [node])
    ensures Distinct(path) && (path != [] ==> IsWalk(arcs, path))
    ensures Elements(path) == Elements(path + [node]) - {node}
  {
    var longer := path + [node];
    assert forall i :: 0 <= i < |path| ==> path[i] == longer[i];
    assert longer[|path|] == node;
  }

  /** The captured sets of a recursive search: nodes on the current path, and nodes done with. */
  class ThreeColourSearch<L(==)> {
    const nodes: set<string>
    const arcs: set<Arc<L>>
    var visiting: set<string>
    var visited: set<string>
    ghost var path: seq<string>
    ghost var finished: seq<string>

    ghost predicate Valid()
      reads this
    {
      && Closed(nodes, arcs)
      && visiting == Elements(path) && visited == Elements(finished)
      && visiting <= nodes && visited <= nodes && visiting !! visited
      && Distinct(path) && (path != [] ==> IsWalk(arcs, path))
      && FinishedAfterSuccessors(arcs, finished)
    }

    constructor (nodes: set<string>, arcs: set<Arc<L>>)
      requires Closed(nodes, arcs)
      ensures Valid() && visited == {} && path == []
      ensures this.nodes == nodes && this.arcs == arcs
    {
      this.nodes, this.arcs := nodes, arcs;
      visiting, visited, path, finished := {}, {}, [], [];
    }

    /** Grey before black, the answer returned: the search of the execution-graph contract. */
    method Visit(node: string) returns (found: bool)
      requires Valid() && node in nodes
      requires path != [] ==> Linked(arcs, path[|path|-1], node)
      modifies this
      ensures found ==> Cyclic(arcs)
      ensures !found ==> Valid() && path == old(path) && old(visited) <= visited && node in visited
      decreases nodes - visiting
    {
      if node in visiting {
        RepeatedNodeIsCyclic(arcs, path, node);
        return true;
      }
      if node in visited {
        return false;
      }
      Enter(node);
      var todo := Out(arcs, node);
      while todo != {}
        invariant Valid() && path == old(path) + [node] && old(visited) <= visited
        invariant todo <= Out(arcs, node)
        invariant forall e :: e in Out(arcs, node) && e !in todo ==> e.dst in visited
        decreases todo
      {
        var e :| e in todo;
        todo := todo - {e};
        assert Linked(arcs, node, e.dst);
        found := Visit(e.dst);
        if found {
          return true;
        }
      }
      Leave(node, old(path));
      return false;
    }

    /** Black before grey, a cycle raised as an error: the search over execution segments. */
    method VisitOrRaise(node: string) returns (ok: bool)
      requires Valid() && node in nodes
      requires path != [] ==> Linked(arcs, path[|path|-1], node)
      modifies this
      ensures !ok ==> Cyclic(arcs)
      ensures ok ==> Valid() && path == old(path) && old(visited) <= visited && node in visited
      decreases nodes - visiting
    {
      if node in visited {
        return true;
      }
      if node in visiting {
        RepeatedNodeIsCyclic(arcs, path, node);
        return false;
      }
      Enter(node);
      var todo := Out(arcs, node);
      while todo != {}
        invariant Valid() && path == old(path) + [node] && old(visited) <= visited
        invariant todo <= Out(arcs, node)
        invariant forall e :: e in Out(arcs, node) && e !in todo ==> e.dst in visited
        decreases todo
      {
        var e :| e in todo;
        todo := todo - {e};
        assert Linked(arcs, node, e.dst);
        ok := VisitOrRaise(e.dst);
        if !ok {
          return false;
        }
      }
      Leave(node, old(path));
      return true;
    }

    method Enter(node: string)
      requires Valid() && node in nodes && node !in visiting && node !in visited
      requires path != [] ==> Linked(arcs, path[|path|-1], node)
      modifies this
      ensures Valid() && path == old(path) + [node] && visited == old(visited)
      ensures visiting == old(visiting) + {node} && finished == old(finished)
    {
      visiting := visiting + {node};
      path := Appended(path, node);
    }

    method Leave(node: string, ghost outer: seq<string>)
      requires Valid() && path == outer + [node]
      requires forall e :: e in Out(arcs, node) ==> e.dst in visited
      modifies this
      ensures Valid() && path == outer && visited == old(visited) + {node}
    {
      PathShortens(arcs, outer, node);
      FinishNext(arcs, finished, node);
      visiting := visiting - {node};
      visited := visited + {node};
      path := outer;
      finished := Appended(finished, node);
    }
  }

  lemma RepeatedNodeIsCyclic<L>(arcs: set<Arc<L>>, path: seq<string>, node: string)
    requires IsWalk(arcs, path) && node in path && Linked(arcs, path[|path|-1], node)
    ensures Cyclic(arcs)
  {
    var i :| 0 <= i < |path| && path[i] == node;
    var q := path[i..] + [node];
    forall k | 0 < k < |q| ensures Linked(arcs, q[k-1], q[k]) {
      assert q[k-1] == path[i+k-1];
      if k < |q| - 1 { assert q[k] == path[i+k]; }
    }
    assert IsWalk(arcs, q) && |q| >= 2 && q[0] == q[|q|-1];
  }

  lemma FinishedIsAcyclic<L>(nodes: set<string>, arcs: set<Arc<L>>, finished: seq<string>)
    requires Closed(nodes, arcs) && nodes <= Elements(finished) && FinishedAfterSuccessors(arcs, finished)
    ensures !Cyclic(arcs)
  {
    forall e | e in arcs ensures Position(finished, e.dst) < Position(finished, e.src) {
      var i := Position(finished, e.src);
      PositionInPrefix(finished, i, e.dst);
    }
    RankedIsAcyclic(arcs, x => -Position(finished, x));
  }

  lemma {:induction false} PositionInPrefix(q: seq<string>, i: nat, x: string)
    requires i <= |q| && x in q[..i]
    ensures Position(q, x) < i
  {
    if q[0] != x {
      assert q[..i] == [q[0]] + q[1..][..i-1];
      PositionInPrefix(q[1..], i - 1, x);
    }
  }

  method AnyVisitFindsCycle<L(==)>(nodes: set<string>, arcs: set<Arc<L>>) returns (found: bool)
    requires Closed(nodes, arcs)
    ensures found <==> Cyclic(arcs)
  {
    var search := new ThreeColourSearch(nodes, arcs);
    var todo := nodes;
    while todo != {}
      invariant search.Valid() && search.path == [] && search.nodes == nodes && search.arcs == arcs
      invariant todo <= nodes && nodes - todo <= search.visited
      invariant fresh(search)
      decreases todo
    {
      var n :| n in todo;
      todo := todo - {n};
      found := search.Visit(n);
      if found {
        return true;
      }
    }
    FinishedIsAcyclic(nodes, arcs, search.finished);
    return false;
  }

  method CycleFree<L(==)>(nodes: set<string>, arcs: set<Arc<L>>) returns (ok: bool)
    requires Closed(nodes, arcs)
    ensures ok <==> !Cyclic(arcs)
  {
    var search := new ThreeColourSearch(nodes, arcs);
    var todo := Sort(nodes);
    var i := 0;
    while i < |todo|
      invariant 0 <= i <= |todo|
      invariant search.Valid() && search.path == [] && search.nodes == nodes && search.arcs == arcs
      invariant Elements(todo[..i]) <= search.visited
      invariant fresh(search)
    {
      ok := search.VisitOrRaise(todo[i]);
      if !ok {
        return false;
      }
      assert todo[..i+1] == todo[..i] + [todo[i]];
      i := i + 1;
    }
    assert todo[..i] == todo;
    FinishedIsAcyclic(nodes, arcs, search.finished);
    return true;
  }
}
