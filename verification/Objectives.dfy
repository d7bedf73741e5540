/** The objective-graph check: a recursive walk that carries the set of nodes above it and
    remembers nothing between branches. */
module Objectives {
  import opened Digraph

  datatype ObjectiveNode = ObjectiveNode(nodeId: string, childIds: seq<string>, requirementId: string, weighted: bool)

  function ById(nodes: seq<ObjectiveNode>): (m: map<string, ObjectiveNode>)
    ensures |m| <= |nodes|
    ensures forall n :: n in nodes ==> n.nodeId in m
  {
    if nodes == [] then map[] else
    var last := nodes[|nodes|-1];
    ById(nodes[..|nodes|-1])[last.nodeId := last]
  }

  /** walk(nid, path) raises nothing. */
  predicate WalkAccepts(byId: map<string, ObjectiveNode>, hard: set<string>, nid: string, path: set<string>)
    decreases byId.Keys - path
  {
    && nid !in path
    && nid in byId
    && !(byId[nid].requirementId in hard && byId[nid].weighted)
    && forall c :: c in byId[nid].childIds ==> WalkAccepts(byId, hard, c, path + {nid})
  }

  /** validate_objective_graph raises nothing. */
  predicate Accepts(nodes: seq<ObjectiveNode>, hard: set<string>) {
    && |ById(nodes)| == |nodes|
    && forall nid :: nid in ById(nodes) ==> WalkAccepts(ById(nodes), hard, nid, {})
  }

  ghost function ChildArcs(byId: map<string, ObjectiveNode>): set<Arc<()>> {
    set n, c | n in byId && c in byId[n].childIds :: Arc(n, c, ())
  }

  /** Everything on the path leads down to nid. */
  ghost predicate PathAbove(arcs: set<Arc<()>>, path: set<string>, nid: string) {
    forall p :: p in path ==> exists e :: e in arcs && e.src == p && Reach(arcs, e.dst, nid)
  }

  lemma PathAboveChild(arcs: set<Arc<()>>, path: set<string>, nid: string, c: string)
    requires PathAbove(arcs, path, nid) && Arc(nid, c, ()) in arcs
    ensures PathAbove(arcs, path + {nid}, c)
  {
    var step := Arc(nid, c, ());
    assert Linked(arcs, nid, c) by { assert step.src == nid && step.dst == c; }
    ReachArc(arcs, nid, c);
    ReachSelf(arcs, c);
    forall p | p in path + {nid} ensures exists e :: e in arcs && e.src == p && Reach(arcs, e.dst, c) {
      if p in path {
        var e :| e in arcs && e.src == p && Reach(arcs, e.dst, nid);
        ReachTransitive(arcs, e.dst, nid, c);
      } else {
        assert step.src == p && Reach(arcs, step.dst, c);
      }
    }
  }

  lemma {:induction false} AcyclicIsAccepted(byId: map<string, ObjectiveNode>, hard: set<string>, nid: string, path: set<string>)
    requires Closed(byId.Keys, ChildArcs(byId)) && !Cyclic(ChildArcs(byId))
    requires forall id :: id in byId ==> !(byId[id].requirementId in hard && byId[id].weighted)
    requires nid in byId && PathAbove(ChildArcs(byId), path, nid)
    ensures WalkAccepts(byId, hard, nid, path)
    decreases byId.Keys - path
  {
    var arcs := ChildArcs(byId);
    if nid in path {
      var e :| e in arcs && e.src == nid && Reach(arcs, e.dst, nid);
      CycleThroughArc(arcs, e);
    } else {
      forall c | c in byId[nid].childIds ensures WalkAccepts(byId, hard, c, path + {nid}) {
        assert Arc(nid, c, ()) in arcs;
        PathAboveChild(arcs, path, nid, c);
        AcyclicIsAccepted(byId, hard, c, path + {nid});
      }
    }
  }

  /** An accepted walk is also accepted at every node further down, below everything in between. */
  lemma {:induction false} AcceptedBelow(byId: map<string, ObjectiveNode>, hard: set<string>, w: seq<string>, path: set<string>)
    requires IsWalk(ChildArcs(byId), w) && WalkAccepts(byId, hard, w[0], path)
    ensures WalkAccepts(byId, hard, w[|w|-1], path + Elements(w[..|w|-1]))
  {
    if |w| == 1 {
      assert path + Elements(w[..0]) == path;
    } else {
      var rest := w[1..];
      assert Linked(ChildArcs(byId), w[0], w[1]);
      assert IsWalk(ChildArcs(byId), rest);
      AcceptedBelow(byId, hard, rest, path + {w[0]});
      assert w[..|w|-1] == [w[0]] + rest[..|rest|-1];
      assert path + {w[0]} + Elements(rest[..|rest|-1]) == path + Elements(w[..|w|-1]);
    }
  }

  predicate DistinctIds(nodes: seq<ObjectiveNode>) {
    forall i, j :: 0 <= i < j < |nodes| ==> nodes[i].nodeId != nodes[j].nodeId
  }

  lemma {:induction false} IdIsLookedUp(nodes: seq<ObjectiveNode>, id: string) returns (k: nat)
    requires id in ById(nodes)
    ensures k < |nodes| && nodes[k].nodeId == id
  {
    if nodes[|nodes|-1].nodeId == id {
      k := |nodes| - 1;
    } else {
      k := IdIsLookedUp(nodes[..|nodes|-1], id);
    }
  }

  /** The size test of the dictionary is the test for duplicate node ids. */
  lemma {:induction false} SizeDetectsDuplicates(nodes: seq<ObjectiveNode>)
    ensures |ById(nodes)| == |nodes| <==> DistinctIds(nodes)
  {
    if nodes != [] {
      var init, last := nodes[..|nodes|-1], nodes[|nodes|-1];
      SizeDetectsDuplicates(init);
      if last.nodeId in ById(init) {
        var k := IdIsLookedUp(init, last.nodeId);
        assert nodes[k].nodeId == nodes[|nodes|-1].nodeId;
      } else {
        assert forall i :: 0 <= i < |init| ==> nodes[i] == init[i] && nodes[i] in init;
      }
    }
  }

  /** The walk accepts exactly the duplicate-free, closed, acyclic graphs without a weighted hard
      requirement. */
  lemma AcceptsExactlyDags(nodes: seq<ObjectiveNode>, hard: set<string>)
    ensures Accepts(nodes, hard) <==>
              && DistinctIds(nodes)
              && Closed(ById(nodes).Keys, ChildArcs(ById(nodes)))
              && !Cyclic(ChildArcs(ById(nodes)))
              && forall n :: n in ById(nodes) ==> !(ById(nodes)[n].requirementId in hard && ById(nodes)[n].weighted)
  {
    var byId := ById(nodes);
    var arcs := ChildArcs(byId);
    SizeDetectsDuplicates(nodes);
    if Accepts(nodes, hard) {
      forall e | e in arcs ensures e.dst in byId {
        assert WalkAccepts(byId, hard, e.src, {});
        assert WalkAccepts(byId, hard, e.dst, {} + {e.src});
      }
      if Cyclic(arcs) {
        var w :| IsWalk(arcs, w) && |w| >= 2 && w[0] == w[|w|-1];
        assert Linked(arcs, w[0], w[1]);
        assert w[0] == w[..|w|-1][0];
        AcceptedBelow(byId, hard, w, {});
      }
    } else if Closed(byId.Keys, arcs) && !Cyclic(arcs)
              && forall n :: n in byId ==> !(byId[n].requirementId in hard && byId[n].weighted) {
      forall nid | nid in byId ensures WalkAccepts(byId, hard, nid, {}) {
        AcyclicIsAccepted(byId, hard, nid, {});
      }
    }
  }
}
