/**
 * The store's breadth-first step recorder (`generateBFSSteps`).
 *
 * Every edge is made two-way in an adjacency list, the traversal starts from the fixed node
 * "A" with a FIFO queue and a visited list kept in insertion order, and one snapshot is
 * recorded per newly visited node. Queue entries that are already visited when they reach
 * the front are dropped without a snapshot.
 *
 * `Adjacency` and `BfsLoop` describe what is built and recorded; `BuildAdjacency` and
 * `GenerateBfsSteps` are the loops themselves, proved to produce exactly that.
 */
module Bfs {

  import opened Common
  import opened Datasets

  /** The node every traversal starts from. */
  const Start: NodeId := "A"

  /** One snapshot: nodes visited so far in discovery order, the queue, and the node just visited. */
  datatype BfsStep = BfsStep(visited: seq<NodeId>, queue: seq<NodeId>, current: NodeId)

  type AdjacencyList = map<NodeId, seq<NodeId>>

  // ------------------------------------------------------------ adjacency list

  /** Every node listed as a neighbour has a list of its own. */
  predicate Closed(adj: AdjacencyList)
  {
    forall x, y :: x in adj && y in adj[x] ==> y in adj
  }

  /** `adjacencyList.get(x) || []`. */
  function Neighbors(adj: AdjacencyList, x: NodeId): seq<NodeId>
  {
    if x in adj then adj[x] else []
  }

  /** The effect of one edge: both endpoints get a list, each is appended to the other's. */
  function AddEdge(adj: AdjacencyList, e: Edge): AdjacencyList
  {
    var withFrom := if e.from in adj then adj else adj[e.from := []];
    var withBoth := if e.to in withFrom then withFrom else withFrom[e.to := []];
    var forward := withBoth[e.from := withBoth[e.from] + [e.to]];
    forward[e.to := forward[e.to] + [e.from]]
  }

  /** The adjacency list after the `forEach` has seen every edge in order. */
  function Adjacency(edges: seq<Edge>): (adj: AdjacencyList)
    ensures Closed(adj)
    decreases |edges|
  {
    if edges == [] then map[]
    else AddEdge(Adjacency(edges[..|edges| - 1]), edges[|edges| - 1])
  }

  /** The two-way view of `edges` seen from `x`, edge by edge in declaration order. */
  function Incident(edges: seq<Edge>, x: NodeId): seq<NodeId>
    decreases |edges|
  {
    if edges == [] then []
    else
      var e := edges[|edges| - 1];
      Incident(edges[..|edges| - 1], x)
      + (if e.from == x then [e.to] else []) + (if e.to == x then [e.from] else [])
  }

  /** The endpoints of the edges. */
  function Endpoints(edges: seq<Edge>): set<NodeId>
    decreases |edges|
  {
    if edges == [] then {}
    else Endpoints(edges[..|edges| - 1]) + {edges[|edges| - 1].from, edges[|edges| - 1].to}
  }

  lemma AddEdgeNeighbors(adj: AdjacencyList, e: Edge, x: NodeId)
    ensures Neighbors(AddEdge(adj, e), x)
         == Neighbors(adj, x) + (if e.from == x then [e.to] else []) + (if e.to == x then [e.from] else [])
    ensures AddEdge(adj, e).Keys == adj.Keys + {e.from, e.to}
  {
  }

  /**
   * The adjacency list holds a list for exactly the edge endpoints, and the list of `x` names
   * the other end of every edge touching `x`, in the order the edges are declared.
   */
  lemma {:induction false} AdjacencyIsIncident(edges: seq<Edge>, x: NodeId)
    ensures Neighbors(Adjacency(edges), x) == Incident(edges, x)
    ensures Adjacency(edges).Keys == Endpoints(edges)
    decreases |edges|
  {
    if edges != [] {
      var prefix := edges[..|edges| - 1];
      AdjacencyIsIncident(prefix, x);
      AddEdgeNeighbors(Adjacency(prefix), edges[|edges| - 1], x);
    }
  }

  /** `y` is listed for `x` exactly when some edge joins them, in either direction. */
  lemma {:induction false} IncidentMeansJoined(edges: seq<Edge>, x: NodeId, y: NodeId)
    ensures y in Incident(edges, x) <==>
      exists k :: 0 <= k < |edges| && Joins(edges[k], x, y)
    decreases |edges|
  {
    if edges != [] {
      var prefix := edges[..|edges| - 1];
      IncidentMeansJoined(prefix, x, y);
      if y in Incident(edges, x) {
        if y in Incident(prefix, x) {
          var k :| 0 <= k < |prefix| && Joins(prefix[k], x, y);
          assert edges[k] == prefix[k];
        } else {
          assert Joins(edges[|edges| - 1], x, y);
        }
      } else {
        forall k | 0 <= k < |edges| ensures !Joins(edges[k], x, y) {
          if k < |prefix| { assert edges[k] == prefix[k]; }
        }
      }
    }
  }

  predicate Joins(e: Edge, x: NodeId, y: NodeId)
  {
    (e.from == x && e.to == y) || (e.from == y && e.to == x)
  }

  /** Every edge is made two-way: `y` is a neighbour of `x` exactly when `x` is one of `y`. */
  lemma AdjacencySymmetric(edges: seq<Edge>, x: NodeId, y: NodeId)
    ensures y in Neighbors(Adjacency(edges), x) <==> exists k :: 0 <= k < |edges| && Joins(edges[k], x, y)
    ensures y in Neighbors(Adjacency(edges), x) <==> x in Neighbors(Adjacency(edges), y)
  {
    AdjacencyIsIncident(edges, x);
    AdjacencyIsIncident(edges, y);
    IncidentMeansJoined(edges, x, y);
    IncidentMeansJoined(edges, y, x);
    assert forall k :: 0 <= k < |edges| ==> (Joins(edges[k], x, y) <==> Joins(edges[k], y, x));
  }

  /** The `forEach` over the edges, building the map in place. */
  method BuildAdjacency(edges: seq<Edge>) returns (adj: AdjacencyList)
    ensures adj == Adjacency(edges)
  {
    adj := map[];
    var k := 0;
    while k < |edges|
      invariant k <= |edges| && adj == Adjacency(edges[..k])
    {
      var e := edges[k];
      if e.from !in adj { adj := adj[e.from := []]; }
      if e.to !in adj { adj := adj[e.to := []]; }
      adj := adj[e.from := adj[e.from] + [e.to]];
      adj := adj[e.to := adj[e.to] + [e.from]];
      assert edges[..k + 1][..k] == edges[..k];
      k := k + 1;
    }
    assert edges[..k] == edges;
  }

  // ------------------------------------------------------------ the traversal

  /** The nodes the traversal can ever hold: those with a list, and the start node. */
  function Universe(adj: AdjacencyList): set<NodeId>
  {
    adj.Keys + {Start}
  }

  predicate Within(adj: AdjacencyList, s: seq<NodeId>)
  {
    forall y :: y in s ==> y in Universe(adj)
  }

  function Elems(s: seq<NodeId>): set<NodeId>
  {
    set y | y in s
  }

  /** The neighbours the inner `for` loop appends to the queue: those not yet visited, in order. */
  function Unvisited(ns: seq<NodeId>, visited: seq<NodeId>): (r: seq<NodeId>)
    ensures forall y :: y in r <==> y in ns && y !in visited
    decreases |ns|
  {
    if ns == [] then []
    else Unvisited(ns[..|ns| - 1], visited) + (if ns[|ns| - 1] in visited then [] else [ns[|ns| - 1]])
  }

  /** Visiting a node of the universe not yet visited leaves fewer nodes to visit. */
  lemma VisitShrinks(adj: AdjacencyList, visited: seq<NodeId>, c: NodeId)
    requires c in Universe(adj) && c !in visited
    ensures |Universe(adj) - Elems(visited + [c])| < |Universe(adj) - Elems(visited)|
  {
    var after, before := Universe(adj) - Elems(visited + [c]), Universe(adj) - Elems(visited);
    assert before == after + {c};
    assert c !in after;
  }

  /**
   * What the `while` loop records from the queue `queue` and the visited list `visited`: pop
   * the front; if it is new, visit it, snapshot, and queue its unvisited neighbours.
   */
  function BfsLoop(adj: AdjacencyList, queue: seq<NodeId>, visited: seq<NodeId>): seq<BfsStep>
    requires Closed(adj) && Within(adj, queue) && Within(adj, visited)
    decreases |Universe(adj) - Elems(visited)|, |queue|
  {
    if queue == [] then []
    else
      var current, rest := queue[0], queue[1..];
      if current in visited then BfsLoop(adj, rest, visited)
      else
        var seen := visited + [current];
        VisitShrinks(adj, visited, current);
        [BfsStep(seen, rest, current)] + BfsLoop(adj, rest + Unvisited(Neighbors(adj, current), seen), seen)
  }

  /** The whole recording for the edge list `edges`, starting from "A". */
  function BfsSteps(edges: seq<Edge>): seq<BfsStep>
  {
    BfsLoop(Adjacency(edges), [Start], [])
  }

  /** The recorder as the source runs it: build the map, then the queue loop with its inner `for`. */
  method GenerateBfsSteps(graph: GraphData) returns (steps: seq<BfsStep>)
    ensures steps == BfsSteps(graph.edges)
  {
    var adj := BuildAdjacency(graph.edges);
    steps := [];
    var visited: seq<NodeId> := [];
    var queue := [Start];
    while queue != []
      invariant Closed(adj) && Within(adj, queue) && Within(adj, visited)
      invariant steps + BfsLoop(adj, queue, visited) == BfsSteps(graph.edges)
      decreases |Universe(adj) - Elems(visited)|, |queue|
    {
      ghost var pending, done := queue, steps;
      var current := queue[0];
      queue := queue[1..];
      if current !in visited {
        VisitShrinks(adj, visited, current);
        visited := visited + [current];
        var step := BfsStep(visited, queue, current);
        steps := steps + [step];
        queue := EnqueueUnvisited(queue, Neighbors(adj, current), visited);
        assert BfsLoop(adj, pending, visited[..|visited| - 1]) == [step] + BfsLoop(adj, queue, visited) by {
          assert visited[..|visited| - 1] + [current] == visited;
        }
        AppendAssoc(done, [step], BfsLoop(adj, queue, visited));
      } else {
        assert BfsLoop(adj, pending, visited) == BfsLoop(adj, queue, visited);
      }
    }
  }

  /** The inner `for` loop: append every neighbour not yet visited to the back of the queue. */
  method EnqueueUnvisited(queue: seq<NodeId>, neighbors: seq<NodeId>, visited: seq<NodeId>)
    returns (queue': seq<NodeId>)
    ensures queue' == queue + Unvisited(neighbors, visited)
  {
    queue' := queue;
    var k := 0;
    while k < |neighbors|
      invariant k <= |neighbors|
      invariant queue' == queue + Unvisited(neighbors[..k], visited)
    {
      assert neighbors[..k + 1][..k] == neighbors[..k];
      if neighbors[k] !in visited {
        queue' := queue' + [neighbors[k]];
      }
      k := k + 1;
    }
    assert neighbors[..k] == neighbors;
  }

  // ------------------------------------------------------------ one round of the loop

  lemma VisitKeepsWithin(adj: AdjacencyList, queue: seq<NodeId>, visited: seq<NodeId>)
    requires Closed(adj) && Within(adj, queue) && Within(adj, visited) && queue != []
    ensures Within(adj, visited + [queue[0]])
    ensures Within(adj, queue[1..] + Unvisited(Neighbors(adj, queue[0]), visited + [queue[0]]))
  {
  }

  /** One round of the `while` loop, as an equation between recordings. */
  lemma BfsLoopStep(adj: AdjacencyList, queue: seq<NodeId>, visited: seq<NodeId>)
    requires Closed(adj) && Within(adj, queue) && Within(adj, visited) && queue != []
    ensures queue[0] in visited ==> BfsLoop(adj, queue, visited) == BfsLoop(adj, queue[1..], visited)
    ensures queue[0] !in visited ==>
      BfsLoop(adj, queue, visited)
      == [BfsStep(visited + [queue[0]], queue[1..], queue[0])]
         + BfsLoop(adj, queue[1..] + Unvisited(Neighbors(adj, queue[0]), visited + [queue[0]]), visited + [queue[0]])
  {
  }

  // ------------------------------------------------------------ the visited list

  /** The visited list just before the snapshot at `k` is taken. */
  function Before(visited: seq<NodeId>, steps: seq<BfsStep>, k: nat): seq<NodeId>
    requires k <= |steps|
  {
    if k == 0 then visited else steps[k - 1].visited
  }

  /** The visited list once the loop is over. */
  function FinalVisited(visited: seq<NodeId>, steps: seq<BfsStep>): seq<NodeId>
  {
    if steps == [] then visited else Last(steps).visited
  }

  /** Each snapshot adds its own `current`, not visited before, to the visited list before it. */
  predicate VisitChain(visited: seq<NodeId>, steps: seq<BfsStep>)
  {
    forall k :: 0 <= k < |steps| ==>
      && steps[k].current !in Before(visited, steps, k)
      && steps[k].visited == Before(visited, steps, k) + [steps[k].current]
  }

  lemma VisitChainCons(visited: seq<NodeId>, step: BfsStep, later: seq<BfsStep>)
    requires step.current !in visited && step.visited == visited + [step.current]
    requires VisitChain(step.visited, later)
    ensures VisitChain(visited, [step] + later)
  {
    var steps := [step] + later;
    forall k | 1 <= k < |steps| ensures Before(visited, steps, k) == Before(step.visited, later, k - 1) {
    }
  }

  lemma VisitChainTail(visited: seq<NodeId>, steps: seq<BfsStep>)
    requires VisitChain(visited, steps) && steps != []
    ensures VisitChain(steps[0].visited, steps[1..])
  {
    var later := steps[1..];
    forall k | 0 <= k < |later| ensures Before(steps[0].visited, later, k) == Before(visited, steps, k + 1) {
    }
  }

  /** Along a chain the visited lists grow by one each time, keep their prefix and hold no repeats. */
  lemma {:induction false} VisitChainFacts(visited: seq<NodeId>, steps: seq<BfsStep>)
    requires VisitChain(visited, steps) && NoDup(visited)
    ensures forall k :: 0 <= k < |steps| ==>
      |steps[k].visited| == |visited| + k + 1 && visited <= steps[k].visited && NoDup(steps[k].visited)
    decreases |steps|
  {
    if steps != [] {
      var first := steps[0];
      assert first.visited == visited + [first.current] && first.current !in visited;
      VisitChainTail(visited, steps);
      VisitChainFacts(first.visited, steps[1..]);
      forall k | 1 <= k < |steps|
        ensures |steps[k].visited| == |visited| + k + 1 && visited <= steps[k].visited
      {
        assert steps[k] == steps[1..][k - 1];
      }
    }
  }

  /** Every recording the loop makes is a visit chain. */
  lemma {:induction false} BfsLoopVisits(adj: AdjacencyList, queue: seq<NodeId>, visited: seq<NodeId>)
    requires Closed(adj) && Within(adj, queue) && Within(adj, visited)
    ensures VisitChain(visited, BfsLoop(adj, queue, visited))
    decreases |Universe(adj) - Elems(visited)|, |queue|
  {
    if queue != [] {
      BfsLoopStep(adj, queue, visited);
      if queue[0] in visited {
        BfsLoopVisits(adj, queue[1..], visited);
      } else {
        var seen := visited + [queue[0]];
        VisitShrinks(adj, visited, queue[0]);
        VisitKeepsWithin(adj, queue, visited);
        var queue' := queue[1..] + Unvisited(Neighbors(adj, queue[0]), seen);
        BfsLoopVisits(adj, queue', seen);
        VisitChainCons(visited, BfsStep(seen, queue[1..], queue[0]), BfsLoop(adj, queue', seen));
      }
    }
  }

  // ------------------------------------------------------------ closure

  /** Every neighbour of a visited node is visited or waiting in the queue. */
  predicate Frontier(adj: AdjacencyList, queue: seq<NodeId>, visited: seq<NodeId>)
  {
    forall x, y :: x in visited && y in Neighbors(adj, x) ==> y in visited || y in queue
  }

  predicate ClosedSet(adj: AdjacencyList, nodes: seq<NodeId>)
  {
    forall x, y :: x in nodes && y in Neighbors(adj, x) ==> y in nodes
  }

  /** When the queue runs dry, the visited list is closed under taking neighbours. */
  lemma {:induction false} BfsLoopCloses(adj: AdjacencyList, queue: seq<NodeId>, visited: seq<NodeId>)
    requires Closed(adj) && Within(adj, queue) && Within(adj, visited)
    requires Frontier(adj, queue, visited)
    ensures ClosedSet(adj, FinalVisited(visited, BfsLoop(adj, queue, visited)))
    decreases |Universe(adj) - Elems(visited)|, |queue|
  {
    if queue != [] {
      var current, rest := queue[0], queue[1..];
      FinalVisitedStep(adj, queue, visited);
      if current in visited {
        FrontierAfterSkip(adj, queue, visited);
        BfsLoopCloses(adj, rest, visited);
      } else {
        var seen := visited + [current];
        VisitShrinks(adj, visited, current);
        VisitKeepsWithin(adj, queue, visited);
        FrontierAfterVisit(adj, queue, visited);
        BfsLoopCloses(adj, rest + Unvisited(Neighbors(adj, current), seen), seen);
      }
    }
  }

  /** One round of the loop, seen from the visited list it finally leaves. */
  lemma FinalVisitedStep(adj: AdjacencyList, queue: seq<NodeId>, visited: seq<NodeId>)
    requires Closed(adj) && Within(adj, queue) && Within(adj, visited) && queue != []
    ensures queue[0] in visited ==>
      FinalVisited(visited, BfsLoop(adj, queue, visited)) == FinalVisited(visited, BfsLoop(adj, queue[1..], visited))
    ensures queue[0] !in visited ==>
      var seen := visited + [queue[0]];
      Within(adj, seen) && Within(adj, queue[1..] + Unvisited(Neighbors(adj, queue[0]), seen)) &&
      FinalVisited(visited, BfsLoop(adj, queue, visited))
      == FinalVisited(seen, BfsLoop(adj, queue[1..] + Unvisited(Neighbors(adj, queue[0]), seen), seen))
  {
    BfsLoopStep(adj, queue, visited);
    if queue[0] !in visited {
      VisitKeepsWithin(adj, queue, visited);
      var seen := visited + [queue[0]];
      var later := BfsLoop(adj, queue[1..] + Unvisited(Neighbors(adj, queue[0]), seen), seen);
      assert FinalVisited(visited, [BfsStep(seen, queue[1..], queue[0])] + later) == FinalVisited(seen, later);
    }
  }

  lemma FrontierAfterSkip(adj: AdjacencyList, queue: seq<NodeId>, visited: seq<NodeId>)
    requires queue != [] && queue[0] in visited && Frontier(adj, queue, visited)
    ensures Frontier(adj, queue[1..], visited)
  {
    forall x, y | x in visited && y in Neighbors(adj, x) ensures y in visited || y in queue[1..] {
      if y !in visited {
        assert y in queue && y != queue[0];
        assert y in queue[1..];
      }
    }
  }

  lemma FrontierAfterVisit(adj: AdjacencyList, queue: seq<NodeId>, visited: seq<NodeId>)
    requires queue != [] && queue[0] !in visited && Frontier(adj, queue, visited)
    ensures var seen := visited + [queue[0]];
      Frontier(adj, queue[1..] + Unvisited(Neighbors(adj, queue[0]), seen), seen)
  {
    var current, rest := queue[0], queue[1..];
    var seen := visited + [current];
    var queue' := rest + Unvisited(Neighbors(adj, current), seen);
    forall x, y | x in seen && y in Neighbors(adj, x) ensures y in seen || y in queue' {
      if x in visited && y !in visited && y != current {
        assert y in queue && y != queue[0];
        assert y in rest;
      }
    }
  }

  // ------------------------------------------------------------ discovery

  /** Every queued node is the start node or a neighbour of a visited node. */
  predicate Sourced(adj: AdjacencyList, queue: seq<NodeId>, visited: seq<NodeId>)
  {
    forall y :: y in queue ==> y == Start || exists x :: x in visited && y in Neighbors(adj, x)
  }

  /** Each snapshot's node is the start node or a neighbour of a node visited before it. */
  predicate Discovered(adj: AdjacencyList, visited: seq<NodeId>, steps: seq<BfsStep>)
  {
    forall k :: 0 <= k < |steps| ==>
      steps[k].current == Start
      || exists x :: x in Before(visited, steps, k) && steps[k].current in Neighbors(adj, x)
  }

  lemma DiscoveredCons(adj: AdjacencyList, visited: seq<NodeId>, step: BfsStep, later: seq<BfsStep>)
    requires step.current == Start || exists x :: x in visited && step.current in Neighbors(adj, x)
    requires Discovered(adj, step.visited, later)
    ensures Discovered(adj, visited, [step] + later)
  {
    var steps := [step] + later;
    forall k | 1 <= k < |steps| ensures Before(visited, steps, k) == Before(step.visited, later, k - 1) {
    }
  }

  lemma {:induction false} BfsLoopDiscovers(adj: AdjacencyList, queue: seq<NodeId>, visited: seq<NodeId>)
    requires Closed(adj) && Within(adj, queue) && Within(adj, visited)
    requires Sourced(adj, queue, visited)
    ensures Discovered(adj, visited, BfsLoop(adj, queue, visited))
    decreases |Universe(adj) - Elems(visited)|, |queue|
  {
    if queue != [] {
      var current, rest := queue[0], queue[1..];
      BfsLoopStep(adj, queue, visited);
      assert current in queue;
      if current in visited {
        forall y | y in rest ensures y == Start || exists x :: x in visited && y in Neighbors(adj, x) {
          assert y in queue;
        }
        BfsLoopDiscovers(adj, rest, visited);
      } else {
        var seen := visited + [current];
        VisitShrinks(adj, visited, current);
        VisitKeepsWithin(adj, queue, visited);
        var queue' := rest + Unvisited(Neighbors(adj, current), seen);
        forall y | y in queue' ensures y == Start || exists x :: x in seen && y in Neighbors(adj, x) {
          if y in rest {
            assert y in queue;
            if y != Start {
              var x :| x in visited && y in Neighbors(adj, x);
              assert x in seen;
            }
          } else {
            assert current in seen && y in Neighbors(adj, current);
          }
        }
        BfsLoopDiscovers(adj, queue', seen);
        DiscoveredCons(adj, visited, BfsStep(seen, rest, current), BfsLoop(adj, queue', seen));
      }
    }
  }

  // ------------------------------------------------------------ the recording from "A"

  /** The recording starts by visiting "A"; what follows is the loop from "A"'s neighbours. */
  lemma BfsStepsFirst(edges: seq<Edge>)
    ensures var adj := Adjacency(edges);
      BfsSteps(edges)
      == [BfsStep([Start], [], Start)] + BfsLoop(adj, Unvisited(Neighbors(adj, Start), [Start]), [Start])
  {
    var adj := Adjacency(edges);
    var q: seq<NodeId>, v: seq<NodeId> := [Start], [];
    BfsLoopStep(adj, q, v);
    assert q[0] == Start && q[0] !in v;
    assert q[1..] == [];
    assert v + [q[0]] == [Start];
    var r := Unvisited(Neighbors(adj, Start), [Start]);
    assert q[1..] + r == r;
    assert BfsLoop(adj, q, v) == [BfsStep([Start], [], Start)] + BfsLoop(adj, r, [Start]);
  }

  /** Snapshot `k` visits a node not visited before and appends it to the previous visited list. */
  predicate Extends(steps: seq<BfsStep>, k: nat)
    requires 1 <= k < |steps|
  {
    && steps[k].current !in steps[k - 1].visited
    && steps[k].visited == steps[k - 1].visited + [steps[k].current]
  }

  /**
   * The first snapshot visits "A" alone; every later one adds exactly its own, new node to the
   * visited list of the one before; "A" heads every visited list; no node is visited twice;
   * and there are exactly as many snapshots as distinct nodes visited.
   */
  lemma BfsStepsVisitOrder(edges: seq<Edge>)
    ensures var steps := BfsSteps(edges);
      && |steps| >= 1
      && steps[0].current == Start && steps[0].visited == [Start]
      && (forall k :: 1 <= k < |steps| ==> Extends(steps, k))
      && (forall k :: 0 <= k < |steps| ==>
            |steps[k].visited| == k + 1 && steps[k].visited[0] == Start && NoDup(steps[k].visited))
      && |steps| == |Last(steps).visited|
  {
    var adj := Adjacency(edges);
    var steps := BfsSteps(edges);
    BfsStepsFirst(edges);
    BfsLoopVisits(adj, [Start], []);
    VisitChainFacts([], steps);
    VisitChainTail([], steps);
    VisitChainFacts([Start], steps[1..]);
    forall k | 1 <= k < |steps| ensures Extends(steps, k) && steps[k].visited[0] == Start {
      assert Before([], steps, k) == steps[k - 1].visited;
      assert steps[k] == steps[1..][k - 1];
    }
  }

  /** When the recording ends, every neighbour of every visited node is visited. */
  lemma BfsStepsClosed(edges: seq<Edge>)
    ensures |BfsSteps(edges)| >= 1
    ensures ClosedSet(Adjacency(edges), Last(BfsSteps(edges)).visited)
  {
    BfsStepsFirst(edges);
    BfsLoopCloses(Adjacency(edges), [Start], []);
  }

  /** Snapshot `k` visits a neighbour of a node in the visited list of snapshot `k - 1`. */
  predicate FromVisited(adj: AdjacencyList, steps: seq<BfsStep>, k: nat)
    requires 1 <= k < |steps|
  {
    exists x :: x in steps[k - 1].visited && steps[k].current in Neighbors(adj, x)
  }

  /** Every snapshot after the first visits a neighbour of a node visited before it. */
  lemma BfsStepsDiscovered(edges: seq<Edge>)
    ensures var steps := BfsSteps(edges);
      forall k :: 1 <= k < |steps| ==> FromVisited(Adjacency(edges), steps, k)
  {
    var adj := Adjacency(edges);
    var steps := BfsSteps(edges);
    BfsLoopDiscovers(adj, [Start], []);
    BfsStepsVisitOrder(edges);
    DiscoveredFromVisited(adj, steps);
  }

  /** Once "A" heads every visited list and nodes are new, "discovered" means from a visited node. */
  lemma DiscoveredFromVisited(adj: AdjacencyList, steps: seq<BfsStep>)
    requires Discovered(adj, [], steps)
    requires forall k :: 1 <= k < |steps| ==> Extends(steps, k)
    requires forall k :: 0 <= k < |steps| ==> |steps[k].visited| == k + 1 && steps[k].visited[0] == Start
    ensures forall k :: 1 <= k < |steps| ==> FromVisited(adj, steps, k)
  {
    forall k | 1 <= k < |steps| ensures FromVisited(adj, steps, k) {
      assert Before([], steps, k) == steps[k - 1].visited;
      assert Extends(steps, k);
      assert steps[k - 1].visited[0] == Start;
    }
  }
}
