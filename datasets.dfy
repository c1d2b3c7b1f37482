/**
 * The dataset generators of the store: a random array for the sorting family, a random
 * perfect binary tree for the tree family and the fixed graph for the graph family.
 *
 * `Math.random()` is not modelled; each generator instead receives the values it would
 * have drawn, as a sequence `draws` of reals in [0, 1), consumed in call order.
 */
module Datasets {

  import opened Common

  /** Every draw is a possible result of `Math.random()`. */
  predicate UnitDraws(draws: seq<real>)
  {
    forall k :: 0 <= k < |draws| ==> 0.0 <= draws[k] < 1.0
  }

  /** `Math.floor(r * scale) + offset` for one draw `r`. */
  function Sample(r: real, scale: nat, offset: int): (v: int)
    requires 0.0 <= r < 1.0 && scale > 0
    ensures offset <= v < offset + scale
  {
    (r * scale as real).Floor + offset
  }

  /** Length of the array `generateRandomArray` makes when called without argument. */
  const ArrayLength: nat := 15

  /** Depth of the tree `generateRandomBST` makes when called without argument. */
  const TreeDepth: nat := 3

  /** `generateRandomArray(length)`: `length` integers, each `Math.floor(Math.random() * 80) + 10`. */
  function RandomArray(length: nat, draws: seq<real>): (a: seq<int>)
    requires UnitDraws(draws) && length <= |draws|
    ensures |a| == length
    ensures forall k :: 0 <= k < |a| ==> 10 <= a[k] < 90
    ensures forall k :: 0 <= k < |a| ==> a[k] == Sample(draws[k], 80, 10)
  {
    seq(length, k requires 0 <= k < length => Sample(draws[k], 80, 10))
  }

  // ---------------------------------------------------------------- trees

  /** A binary tree node holding an integer; `Nil` is the absent child (`null`). */
  datatype Tree = Nil | Node(value: int, left: Tree, right: Tree)

  function Pow2(d: nat): (p: nat)
    ensures p >= 1
  {
    if d == 0 then 1 else 2 * Pow2(d - 1)
  }

  /** All leaves at depth `d`: every path from the root meets exactly `d` nodes. */
  predicate Perfect(t: Tree, d: nat)
  {
    if d == 0 then t == Nil
    else t.Node? && Perfect(t.left, d - 1) && Perfect(t.right, d - 1)
  }

  function Size(t: Tree): nat
  {
    if t.Nil? then 0 else 1 + Size(t.left) + Size(t.right)
  }

  /** Node values root first, then the left subtree, then the right subtree. */
  function PreOrder(t: Tree): seq<int>
  {
    if t.Nil? then [] else [t.value] + PreOrder(t.left) + PreOrder(t.right)
  }

  /**
   * `generateRandomBST(depth)`, drawing its values from `draws[pos..]`: the root takes the
   * first draw, then the whole left subtree is built, then the right one, as the recursive
   * calls happen in the source. Each subtree of depth `d - 1` takes `2^(d-1) - 1` draws.
   * The values are independent samples; nothing orders them as a search tree.
   */
  function RandomBST(depth: nat, draws: seq<real>, pos: nat): (t: Tree)
    requires UnitDraws(draws) && pos + Pow2(depth) - 1 <= |draws|
    ensures Perfect(t, depth)
    ensures Size(t) == Pow2(depth) - 1
    ensures |PreOrder(t)| == Pow2(depth) - 1
    ensures forall k :: 0 <= k < |PreOrder(t)| ==> PreOrder(t)[k] == Sample(draws[pos + k], 100, 0)
    ensures forall k :: 0 <= k < |PreOrder(t)| ==> 0 <= PreOrder(t)[k] < 100
    decreases depth
  {
    if depth == 0 then Nil
    else
      var half := Pow2(depth - 1);
      var left := RandomBST(depth - 1, draws, pos + 1);
      var right := RandomBST(depth - 1, draws, pos + half);
      var t := Node(Sample(draws[pos], 100, 0), left, right);
      assert PreOrder(t) == [t.value] + PreOrder(left) + PreOrder(right);
      t
  }

  // ---------------------------------------------------------------- graphs

  type NodeId = string

  /** A directed pair of node ids; the layout coordinates and the weight are not kept. */
  datatype Edge = Edge(from: NodeId, to: NodeId)

  datatype GraphData = GraphData(nodes: seq<NodeId>, edges: seq<Edge>)

  /** `generateRandomGraph()`: always the same five nodes and six edges. */
  function BuiltInGraph(): (g: GraphData)
    ensures |g.nodes| == 5 && NoDup(g.nodes)
    ensures |g.edges| == 6
    ensures forall e :: e in g.edges ==> e.from in g.nodes && e.to in g.nodes && e.from != e.to
  {
    GraphData(["A", "B", "C", "D", "E"],
              [Edge("A", "B"), Edge("A", "C"), Edge("B", "D"),
               Edge("C", "D"), Edge("C", "E"), Edge("D", "E")])
  }
}
