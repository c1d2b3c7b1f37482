/**
 * Worked cases: both bubble-sort recorders on [5, 3, 8, 1], and the BFS recorder on the
 * built-in five-node graph and on the path A - B - C, each computed snapshot by snapshot.
 */
module Scenarios {

  import opened Common
  import opened Datasets
  import opened BubbleSteps
  import opened SwapSteps
  import opened Bfs

  // ------------------------------------------------------------ bubble sort on [5, 3, 8, 1]

  /** The first pass swaps 5 past 3, compares 5 with 8, and carries 8 past 1. */
  lemma FirstPass()
    ensures PassRun([5, 3, 8, 1], 0, 3).values == [3, 5, 1, 8]
    ensures |PassRun([5, 3, 8, 1], 0, 3).steps| == 7
    ensures PassRun([5, 3, 8, 1], 0, 3).steps[1] == SortStep([5, 3, 8, 1], [0, 1], [0, 1])
    ensures PassRun([5, 3, 8, 1], 0, 3).steps[5] == SortStep([3, 5, 8, 1], [2, 3], [2, 3])
  {
    assert Swap([5, 3, 8, 1], 0) == [3, 5, 8, 1];
    assert Swap([3, 5, 8, 1], 2) == [3, 5, 1, 8];
    PassRunUnfold([5, 3, 8, 1], 0, 3);
    PassRunUnfold([3, 5, 8, 1], 1, 3);
    PassRunUnfold([3, 5, 8, 1], 2, 3);
  }

  /** The second pass carries 5 past 1. */
  lemma SecondPass()
    ensures PassRun([3, 5, 1, 8], 0, 2).values == [3, 1, 5, 8]
  {
    assert Swap([3, 5, 1, 8], 1) == [3, 1, 5, 8];
    PassRunUnfold([3, 5, 1, 8], 0, 2);
    PassRunUnfold([3, 5, 1, 8], 1, 2);
  }

  /** The third pass carries 3 past 1. */
  lemma ThirdPass()
    ensures PassRun([3, 1, 5, 8], 0, 1).values == [1, 3, 5, 8]
  {
    assert Swap([3, 1, 5, 8], 0) == [1, 3, 5, 8];
    PassRunUnfold([3, 1, 5, 8], 0, 1);
  }

  /**
   * The recording of [5, 3, 8, 1] ends on [1, 3, 5, 8]; its third snapshot swaps positions
   * 0 and 1 (5 > 3), and a later one swaps 8 rightward past 1.
   */
  lemma BubbleExample()
    ensures var steps := BubbleSortSteps([5, 3, 8, 1]);
      && Last(steps).values == [1, 3, 5, 8]
      && |steps| > 6
      && steps[2] == SortStep([5, 3, 8, 1], [0, 1], [0, 1])
      && steps[6] == SortStep([3, 5, 8, 1], [2, 3], [2, 3])
  {
    var a := [5, 3, 8, 1];
    FirstPass();
    SecondPass();
    ThirdPass();
    var p1 := PassRun(a, 0, 3);
    var rest := PassesRun([3, 5, 1, 8], 1);
    assert PassesRun(a, 0) == Run(p1.steps + rest.steps, rest.values);
    assert rest.values == PassesRun([3, 1, 5, 8], 2).values;
    assert PassesRun([3, 1, 5, 8], 2).values == PassesRun([1, 3, 5, 8], 3).values;
    PassesRunLast(SortStep(a, [], []), 0);
    var steps := BubbleSortSteps(a);
    assert steps == [SortStep(a, [], [])] + (p1.steps + rest.steps);
    assert steps[2] == p1.steps[1] && steps[6] == p1.steps[5];
  }

  /** The provider's recording of [5, 3, 8, 1]: the input, then the array after each of the four swaps. */
  lemma SwapOnlyExample()
    ensures SwapOnlySteps([5, 3, 8, 1]) == [[5, 3, 8, 1], [3, 5, 8, 1], [3, 5, 1, 8], [3, 1, 5, 8], [1, 3, 5, 8]]
  {
    var a, b, c, d, e := [5, 3, 8, 1], [3, 5, 8, 1], [3, 5, 1, 8], [3, 1, 5, 8], [1, 3, 5, 8];
    assert Swap(a, 0) == b && Swap(b, 2) == c && Swap(c, 1) == d && Swap(d, 0) == e;
    assert SwapPass(a, 0, 3) == Trace([b, c], c) by {
      assert SwapPass(b, 1, 3) == SwapPass(b, 2, 3);
      assert SwapPass(b, 2, 3) == Trace([c] + SwapPass(c, 3, 3).snapshots, c);
    }
    assert SwapPass(c, 0, 2) == Trace([d], d) by {
      assert SwapPass(c, 1, 2) == Trace([d] + SwapPass(d, 2, 2).snapshots, d);
    }
    assert SwapPass(d, 0, 1) == Trace([e], e);
    assert SwapPasses(e, 3) == Trace([], e);
    assert SwapPasses(d, 2) == Trace([e], e);
    assert SwapPasses(c, 1) == Trace([d, e], e);
    assert SwapPasses(a, 0) == Trace([b, c, d, e], e);
  }

  // ------------------------------------------------------------ BFS on the built-in graph

  /** The edges of the built-in graph, in declaration order. */
  const BuiltInEdges: seq<Edge> :=
    [Edge("A", "B"), Edge("A", "C"), Edge("B", "D"), Edge("C", "D"), Edge("C", "E"), Edge("D", "E")]

  /** The neighbours one edge contributes to `x`'s list. */
  function EdgeIncident(e: Edge, x: NodeId): seq<NodeId>
  {
    (if e.from == x then [e.to] else []) + (if e.to == x then [e.from] else [])
  }

  lemma {:induction false} IncidentAppend(a: seq<Edge>, b: seq<Edge>, x: NodeId)
    ensures Incident(a + b, x) == Incident(a, x) + Incident(b, x)
    decreases |b|
  {
    if b != [] {
      var b' := b[..|b| - 1];
      assert (a + b)[..|a + b| - 1] == a + b';
      assert (a + b)[|a + b| - 1] == b[|b| - 1];
      IncidentAppend(a, b', x);
    } else {
      assert a + b == a;
    }
  }

  lemma IncidentSnoc(edges: seq<Edge>, e: Edge, x: NodeId)
    ensures Incident(edges + [e], x) == Incident(edges, x) + EdgeIncident(e, x)
  {
    assert (edges + [e])[..|edges|] == edges;
    AppendAssoc(Incident(edges, x), if e.from == x then [e.to] else [], if e.to == x then [e.from] else []);
  }

  lemma IncidentThree(e0: Edge, e1: Edge, e2: Edge, x: NodeId)
    ensures Incident([e0, e1, e2], x) == EdgeIncident(e0, x) + EdgeIncident(e1, x) + EdgeIncident(e2, x)
  {
    assert [e0, e1, e2] == [] + [e0] + [e1] + [e2];
    IncidentSnoc([], e0, x);
    IncidentSnoc([] + [e0], e1, x);
    IncidentSnoc([] + [e0] + [e1], e2, x);
  }

  /** The five node names are pairwise different. */
  lemma Distinct()
    ensures "A" != "B" && "A" != "C" && "A" != "D" && "A" != "E" && "B" != "C"
    ensures "B" != "D" && "B" != "E" && "C" != "D" && "C" != "E" && "D" != "E"
  {
    assert "A"[0] != "B"[0] && "A"[0] != "C"[0] && "A"[0] != "D"[0] && "A"[0] != "E"[0];
    assert "B"[0] != "C"[0] && "B"[0] != "D"[0] && "B"[0] != "E"[0];
    assert "C"[0] != "D"[0] && "C"[0] != "E"[0] && "D"[0] != "E"[0];
  }

  /** The list the `forEach` builds for `x` on the built-in graph, edge by edge. */
  lemma IncidentBuiltIn(x: NodeId)
    ensures Incident(BuiltInEdges, x)
         == EdgeIncident(Edge("A", "B"), x) + EdgeIncident(Edge("A", "C"), x) + EdgeIncident(Edge("B", "D"), x)
          + (EdgeIncident(Edge("C", "D"), x) + EdgeIncident(Edge("C", "E"), x) + EdgeIncident(Edge("D", "E"), x))
  {
    var e0, e1, e2, e3, e4, e5 := Edge("A", "B"), Edge("A", "C"), Edge("B", "D"), Edge("C", "D"), Edge("C", "E"), Edge("D", "E");
    assert BuiltInEdges == [e0, e1, e2] + [e3, e4, e5];
    IncidentAppend([e0, e1, e2], [e3, e4, e5], x);
    IncidentThree(e0, e1, e2, x);
    IncidentThree(e3, e4, e5, x);
  }

  /** The neighbour list the built-in graph gives `x`, read off its edges. */
  lemma BuiltInNeighborsOf(x: NodeId)
    ensures Neighbors(Adjacency(BuiltInGraph().edges), x) == Incident(BuiltInEdges, x)
  {
    assert BuiltInGraph().edges == BuiltInEdges;
    AdjacencyIsIncident(BuiltInEdges, x);
  }

  /** The neighbour lists of the built-in graph, as the walk below uses them. */
  predicate BuiltInShape(adj: AdjacencyList)
  {
    && Closed(adj)
    && Neighbors(adj, "A") == ["B", "C"]
    && Neighbors(adj, "B") == ["A", "D"]
    && Neighbors(adj, "C") == ["A", "D", "E"]
    && Neighbors(adj, "D") == ["B", "C", "E"]
    && Neighbors(adj, "E") == ["C", "D"]
  }

  /**
   * One lemma per node: each list is read off the six edges. Proving two or more lists in
   * one lemma costs the solver far more than proving them one at a time.
   */
  lemma NeighborsA()
    ensures Neighbors(Adjacency(BuiltInGraph().edges), "A") == ["B", "C"]
  {
    BuiltInNeighborsOf("A");
    IncidentBuiltIn("A");
    Distinct();
  }

  lemma NeighborsB()
    ensures Neighbors(Adjacency(BuiltInGraph().edges), "B") == ["A", "D"]
  {
    BuiltInNeighborsOf("B");
    IncidentBuiltIn("B");
    Distinct();
  }

  lemma NeighborsC()
    ensures Neighbors(Adjacency(BuiltInGraph().edges), "C") == ["A", "D", "E"]
  {
    BuiltInNeighborsOf("C");
    IncidentBuiltIn("C");
    Distinct();
  }

  lemma NeighborsD()
    ensures Neighbors(Adjacency(BuiltInGraph().edges), "D") == ["B", "C", "E"]
  {
    BuiltInNeighborsOf("D");
    IncidentBuiltIn("D");
    Distinct();
  }

  lemma NeighborsE()
    ensures Neighbors(Adjacency(BuiltInGraph().edges), "E") == ["C", "D"]
  {
    BuiltInNeighborsOf("E");
    IncidentBuiltIn("E");
    Distinct();
  }

  /** The built-in graph has the lists A: B, C; B: A, D; C: A, D, E; D: B, C, E; E: C, D. */
  lemma BuiltInHasShape()
    ensures BuiltInShape(Adjacency(BuiltInGraph().edges))
  {
    NeighborsA();
    NeighborsB();
    NeighborsC();
    NeighborsD();
    NeighborsE();
  }

  /** Every node of the built-in graph has a list. */
  lemma ShapeWithin(adj: AdjacencyList)
    requires BuiltInShape(adj)
    ensures forall s: seq<NodeId> :: (forall y :: y in s ==> y in ["A", "B", "C", "D", "E"]) ==> Within(adj, s)
  {
    assert "A" in adj && "B" in adj && "C" in adj && "D" in adj && "E" in adj;
  }

  /** The neighbours each visit appends to the queue. */
  lemma QueuedAfterA()
    ensures Unvisited(["B", "C"], ["A"]) == ["B", "C"]
  {
    Distinct();
    assert ["B", "C"][..1] == ["B"];
  }

  lemma QueuedAfterB()
    ensures Unvisited(["A", "D"], ["A", "B"]) == ["D"]
  {
    Distinct();
    assert ["A", "D"][..1] == ["A"];
  }

  lemma QueuedAfterC()
    ensures Unvisited(["A", "D", "E"], ["A", "B", "C"]) == ["D", "E"]
  {
    Distinct();
    assert ["A", "D", "E"][..2] == ["A", "D"];
    assert ["A", "D"][..1] == ["A"];
  }

  lemma QueuedAfterD()
    ensures Unvisited(["B", "C", "E"], ["A", "B", "C", "D"]) == ["E"]
  {
    Distinct();
    assert ["B", "C", "E"][..2] == ["B", "C"];
    assert ["B", "C"][..1] == ["B"];
  }

  lemma QueuedAfterE()
    ensures Unvisited(["C", "D"], ["A", "B", "C", "D", "E"]) == []
  {
    Distinct();
    assert ["C", "D"][..1] == ["C"];
  }

  /** Visit A and queue B, C. */
  lemma RoundA(adj: AdjacencyList)
    requires BuiltInShape(adj)
    ensures BfsLoop(adj, ["A"], []) == [BfsStep(["A"], [], "A")] + BfsLoop(adj, ["B", "C"], ["A"])
  {
    Distinct();
    ShapeWithin(adj);
    QueuedAfterA();
    assert ["A"] == ["A"] + [] && [] + ["A"] == ["A"] && [] + ["B", "C"] == ["B", "C"];
    Visit(adj, "A", [], [], ["B", "C"]);
  }

  /** Visit B and queue D. */
  lemma RoundB(adj: AdjacencyList)
    requires BuiltInShape(adj)
    ensures BfsLoop(adj, ["B", "C"], ["A"]) == [BfsStep(["A", "B"], ["C"], "B")] + BfsLoop(adj, ["C", "D"], ["A", "B"])
  {
    Distinct();
    ShapeWithin(adj);
    assert ["A"] + ["B"] == ["A", "B"];
    QueuedAfterB();
    assert ["B", "C"] == ["B"] + ["C"] && ["C"] + ["D"] == ["C", "D"];
    Visit(adj, "B", ["C"], ["A"], ["C", "D"]);
  }

  /** Visit C and queue D, E. */
  lemma RoundC(adj: AdjacencyList)
    requires BuiltInShape(adj)
    ensures BfsLoop(adj, ["C", "D"], ["A", "B"])
         == [BfsStep(["A", "B", "C"], ["D"], "C")] + BfsLoop(adj, ["D", "D", "E"], ["A", "B", "C"])
  {
    Distinct();
    ShapeWithin(adj);
    assert ["A", "B"] + ["C"] == ["A", "B", "C"];
    QueuedAfterC();
    assert ["C", "D"] == ["C"] + ["D"] && ["D"] + ["D", "E"] == ["D", "D", "E"];
    Visit(adj, "C", ["D"], ["A", "B"], ["D", "D", "E"]);
  }

  /** Visit D and queue E. */
  lemma RoundD(adj: AdjacencyList)
    requires BuiltInShape(adj)
    ensures BfsLoop(adj, ["D", "D", "E"], ["A", "B", "C"])
         == [BfsStep(["A", "B", "C", "D"], ["D", "E"], "D")] + BfsLoop(adj, ["D", "E", "E"], ["A", "B", "C", "D"])
  {
    Distinct();
    ShapeWithin(adj);
    assert ["A", "B", "C"] + ["D"] == ["A", "B", "C", "D"];
    QueuedAfterD();
    assert ["D", "D", "E"] == ["D"] + ["D", "E"] && ["D", "E"] + ["E"] == ["D", "E", "E"];
    Visit(adj, "D", ["D", "E"], ["A", "B", "C"], ["D", "E", "E"]);
  }

  /** Skip the second D. */
  lemma RoundSkipD(adj: AdjacencyList)
    requires BuiltInShape(adj)
    ensures BfsLoop(adj, ["D", "E", "E"], ["A", "B", "C", "D"]) == BfsLoop(adj, ["E", "E"], ["A", "B", "C", "D"])
  {
    ShapeWithin(adj);
    assert ["D", "E", "E"] == ["D"] + ["E", "E"];
    Skip(adj, "D", ["E", "E"], ["A", "B", "C", "D"]);
  }

  /** Visit E, queue nothing, skip the second E, and stop. */
  lemma RoundE(adj: AdjacencyList)
    requires BuiltInShape(adj)
    ensures BfsLoop(adj, ["E", "E"], ["A", "B", "C", "D"]) == [BfsStep(["A", "B", "C", "D", "E"], ["E"], "E")]
  {
    Distinct();
    ShapeWithin(adj);
    assert ["A", "B", "C", "D"] + ["E"] == ["A", "B", "C", "D", "E"];
    QueuedAfterE();
    assert ["E", "E"] == ["E"] + ["E"] && ["E"] + [] == ["E"];
    Visit(adj, "E", ["E"], ["A", "B", "C", "D"], ["E"]);
    assert ["E"] == ["E"] + [];
    Skip(adj, "E", [], ["A", "B", "C", "D", "E"]);
  }

  /** The traversal from "A" over any adjacency list shaped like the built-in graph. */
  lemma BuiltInWalk(adj: AdjacencyList)
    requires BuiltInShape(adj)
    ensures BfsLoop(adj, ["A"], []) == [
      BfsStep(["A"], [], "A"),
      BfsStep(["A", "B"], ["C"], "B"),
      BfsStep(["A", "B", "C"], ["D"], "C"),
      BfsStep(["A", "B", "C", "D"], ["D", "E"], "D"),
      BfsStep(["A", "B", "C", "D", "E"], ["E"], "E")]
  {
    var s1, s2, s3 := BfsStep(["A"], [], "A"), BfsStep(["A", "B"], ["C"], "B"), BfsStep(["A", "B", "C"], ["D"], "C");
    var s4, s5 := BfsStep(["A", "B", "C", "D"], ["D", "E"], "D"), BfsStep(["A", "B", "C", "D", "E"], ["E"], "E");
    RoundE(adj);
    RoundSkipD(adj);
    RoundD(adj);
    RoundC(adj);
    RoundB(adj);
    RoundA(adj);
    ConsFive(s1, s2, s3, s4, s5);
  }

  lemma ConsFive<T>(a: T, b: T, c: T, d: T, e: T)
    ensures [d] + [e] == [d, e] && [c] + [d, e] == [c, d, e]
    ensures [b] + [c, d, e] == [b, c, d, e] && [a] + [b, c, d, e] == [a, b, c, d, e]
  {
  }

  /**
   * On the built-in graph the recorder visits A, B, C, D, E in five snapshots; the second
   * D and the second E are popped already visited and skipped.
   */
  lemma BuiltInGraphBfs()
    ensures BfsSteps(BuiltInGraph().edges) == [
      BfsStep(["A"], [], "A"),
      BfsStep(["A", "B"], ["C"], "B"),
      BfsStep(["A", "B", "C"], ["D"], "C"),
      BfsStep(["A", "B", "C", "D"], ["D", "E"], "D"),
      BfsStep(["A", "B", "C", "D", "E"], ["E"], "E")]
  {
    BuiltInHasShape();
    BuiltInWalk(Adjacency(BuiltInGraph().edges));
  }

  // ------------------------------------------------------------ BFS on the path A - B - C

  /** A three-node path: A joined to B, B joined to C. */
  const PathEdges: seq<Edge> := [Edge("A", "B"), Edge("B", "C")]

  lemma PathIncident(x: NodeId)
    ensures Neighbors(Adjacency(PathEdges), x) == EdgeIncident(Edge("A", "B"), x) + EdgeIncident(Edge("B", "C"), x)
  {
    var e0, e1 := Edge("A", "B"), Edge("B", "C");
    assert PathEdges == [] + [e0] + [e1];
    AdjacencyIsIncident(PathEdges, x);
    IncidentSnoc([], e0, x);
    IncidentSnoc([] + [e0], e1, x);
  }

  lemma PathNeighbors()
    ensures PathShape(Adjacency(PathEdges))
  {
    Distinct();
    PathIncident("A");
    PathIncident("B");
    PathIncident("C");
  }

  predicate PathShape(adj: AdjacencyList)
  {
    && Closed(adj)
    && Neighbors(adj, "A") == ["B"] && Neighbors(adj, "B") == ["A", "C"] && Neighbors(adj, "C") == ["B"]
  }

  lemma PathRoundA(adj: AdjacencyList)
    requires PathShape(adj)
    ensures BfsLoop(adj, ["A"], []) == [BfsStep(["A"], [], "A")] + BfsLoop(adj, ["B"], ["A"])
  {
    assert "A" in adj && "B" in adj;
    assert ["A"] == ["A"] + [] && [] + ["A"] == ["A"] && [] + ["B"] == ["B"];
    assert Unvisited(["B"], ["A"]) == ["B"] by { Distinct(); }
    Visit(adj, "A", [], [], ["B"]);
  }

  lemma PathRoundB(adj: AdjacencyList)
    requires PathShape(adj)
    ensures BfsLoop(adj, ["B"], ["A"]) == [BfsStep(["A", "B"], [], "B")] + BfsLoop(adj, ["C"], ["A", "B"])
  {
    assert "A" in adj && "B" in adj && "C" in adj;
    assert ["B"] == ["B"] + [] && ["A"] + ["B"] == ["A", "B"] && [] + ["C"] == ["C"];
    assert Unvisited(["A", "C"], ["A", "B"]) == ["C"] by {
      Distinct();
      assert ["A", "C"][..1] == ["A"];
    }
    Visit(adj, "B", [], ["A"], ["C"]);
  }

  lemma PathRoundC(adj: AdjacencyList)
    requires PathShape(adj)
    ensures BfsLoop(adj, ["C"], ["A", "B"]) == [BfsStep(["A", "B", "C"], [], "C")]
  {
    assert "A" in adj && "B" in adj && "C" in adj;
    assert ["C"] == ["C"] + [] && ["A", "B"] + ["C"] == ["A", "B", "C"];
    assert Unvisited(["B"], ["A", "B", "C"]) == [];
    Distinct();
    Visit(adj, "C", [], ["A", "B"], []);
  }

  /** From A the recorder visits A, then B, then C, with nothing left queued at each snapshot. */
  lemma PathBfs()
    ensures BfsSteps(PathEdges) == [BfsStep(["A"], [], "A"), BfsStep(["A", "B"], [], "B"), BfsStep(["A", "B", "C"], [], "C")]
    ensures Last(BfsSteps(PathEdges)).visited == ["A", "B", "C"]
  {
    var adj := Adjacency(PathEdges);
    PathNeighbors();
    PathRoundA(adj);
    PathRoundB(adj);
    PathRoundC(adj);
    ConsThree(BfsStep(["A"], [], "A"), BfsStep(["A", "B"], [], "B"), BfsStep(["A", "B", "C"], [], "C"));
  }

  lemma ConsThree<T>(a: T, b: T, c: T)
    ensures [b] + [c] == [b, c] && [a] + [b, c] == [a, b, c]
  {
  }

  /** One round that pops `c`, not yet visited, and leaves `next` queued. */
  lemma Visit(adj: AdjacencyList, c: NodeId, rest: seq<NodeId>, visited: seq<NodeId>, next: seq<NodeId>)
    requires Closed(adj) && Within(adj, [c] + rest) && Within(adj, visited)
    requires c !in visited
    requires rest + Unvisited(Neighbors(adj, c), visited + [c]) == next
    ensures Within(adj, next) && Within(adj, visited + [c])
    ensures BfsLoop(adj, [c] + rest, visited)
      == [BfsStep(visited + [c], rest, c)] + BfsLoop(adj, next, visited + [c])
  {
    assert ([c] + rest)[0] == c && ([c] + rest)[1..] == rest;
    BfsLoopStep(adj, [c] + rest, visited);
    VisitKeepsWithin(adj, [c] + rest, visited);
  }

  /** One round that pops `c`, already visited. */
  lemma Skip(adj: AdjacencyList, c: NodeId, rest: seq<NodeId>, visited: seq<NodeId>)
    requires Closed(adj) && Within(adj, [c] + rest) && Within(adj, visited)
    requires c in visited
    ensures BfsLoop(adj, [c] + rest, visited) == BfsLoop(adj, rest, visited)
  {
    assert ([c] + rest)[0] == c && ([c] + rest)[1..] == rest;
    BfsLoopStep(adj, [c] + rest, visited);
  }
}
