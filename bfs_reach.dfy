/**
 * What the BFS recording visits, stated without the loop: the last visited list holds
 * exactly the nodes reachable from "A" in the two-way adjacency list, each once.
 */
module BfsReach {

  import opened Common
  import opened Datasets
  import opened Bfs

  /** The walk `p` moves at position `i` to a neighbour of the node before. */
  predicate Link(adj: AdjacencyList, p: seq<NodeId>, i: nat)
    requires 1 <= i < |p|
  {
    p[i] in Neighbors(adj, p[i - 1])
  }

  /** A walk from "A" that moves from each node to one of its neighbours. */
  predicate IsPath(adj: AdjacencyList, p: seq<NodeId>)
  {
    && |p| >= 1
    && p[0] == Start
    && forall i :: 1 <= i < |p| ==> Link(adj, p, i)
  }

  ghost predicate Reachable(adj: AdjacencyList, x: NodeId)
  {
    exists p :: IsPath(adj, p) && Last(p) == x
  }

  lemma ExtendPath(adj: AdjacencyList, p: seq<NodeId>, y: NodeId)
    requires IsPath(adj, p) && y in Neighbors(adj, Last(p))
    ensures IsPath(adj, p + [y]) && Last(p + [y]) == y
  {
    var q := p + [y];
    forall i | 1 <= i < |q| ensures Link(adj, q, i) {
      if i < |p| {
        assert q[i] == p[i] && q[i - 1] == p[i - 1];
        assert Link(adj, p, i);
      }
    }
  }

  /** A walk from "A" never leaves a node set that holds "A" and is closed under neighbours. */
  lemma {:induction false} PathStaysInside(adj: AdjacencyList, nodes: seq<NodeId>, p: seq<NodeId>, i: nat)
    requires Start in nodes && ClosedSet(adj, nodes) && IsPath(adj, p) && i < |p|
    ensures p[i] in nodes
  {
    if i > 0 {
      PathStaysInside(adj, nodes, p, i - 1);
      assert Link(adj, p, i);
    }
  }

  /** Snapshots that start from "A" alone and each add a neighbour of an earlier node. */
  predicate Grows(adj: AdjacencyList, steps: seq<BfsStep>)
  {
    && |steps| >= 1
    && steps[0].visited == [Start]
    && (forall j :: 1 <= j < |steps| ==> Extends(steps, j))
    && (forall j :: 1 <= j < |steps| ==> FromVisited(adj, steps, j))
  }

  /**
   * Along snapshots that start from "A" and each add a neighbour of an earlier node, every
   * node in the visited list of snapshot `k` is reachable from "A".
   */
  lemma {:induction false} VisitedReachable(adj: AdjacencyList, steps: seq<BfsStep>, k: nat)
    requires k < |steps| && Grows(adj, steps)
    ensures forall x :: x in steps[k].visited ==> Reachable(adj, x)
  {
    if k == 0 {
      assert IsPath(adj, [Start]) && Last([Start]) == Start;
    } else {
      VisitedReachable(adj, steps, k - 1);
      assert Extends(steps, k) && FromVisited(adj, steps, k);
      var y := steps[k].current;
      var z :| z in steps[k - 1].visited && y in Neighbors(adj, z);
      var p :| IsPath(adj, p) && Last(p) == z;
      ExtendPath(adj, p, y);
      forall x | x in steps[k].visited ensures Reachable(adj, x) {
        assert steps[k].visited == steps[k - 1].visited + [y];
        if x != y {
          assert x in steps[k - 1].visited;
        }
      }
    }
  }

  /** The store's recording grows as `Grows` says and never repeats a node. */
  lemma RecordingGrows(edges: seq<Edge>)
    ensures Grows(Adjacency(edges), BfsSteps(edges))
    ensures NoDup(Last(BfsSteps(edges)).visited)
  {
    var steps, adj := BfsSteps(edges), Adjacency(edges);
    BfsStepsVisitOrder(edges);
    BfsStepsDiscovered(edges);
  }

  /**
   * When the recording ends, its last visited list holds exactly the nodes reachable from
   * "A", each once, in the order they were visited.
   */
  lemma BfsVisitsReachable(edges: seq<Edge>)
    ensures var steps, adj := BfsSteps(edges), Adjacency(edges);
      && |steps| >= 1 && NoDup(Last(steps).visited)
      && forall x :: x in Last(steps).visited <==> Reachable(adj, x)
  {
    var steps, adj := BfsSteps(edges), Adjacency(edges);
    RecordingGrows(edges);
    BfsStepsClosed(edges);
    var final := Last(steps).visited;
    VisitedReachable(adj, steps, |steps| - 1);
    StartStays(adj, steps, |steps| - 1);
    forall x | Reachable(adj, x) ensures x in final {
      var p :| IsPath(adj, p) && Last(p) == x;
      PathStaysInside(adj, final, p, |p| - 1);
    }
  }

  /** "A" stays in every visited list from the first snapshot on. */
  lemma {:induction false} StartStays(adj: AdjacencyList, steps: seq<BfsStep>, k: nat)
    requires k < |steps| && Grows(adj, steps)
    ensures Start in steps[k].visited
  {
    if k > 0 {
      StartStays(adj, steps, k - 1);
      assert Extends(steps, k);
    }
  }
}
