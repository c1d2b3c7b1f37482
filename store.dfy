/**
 * The live algorithm store: which algorithm is selected, the data it runs on, the recorded
 * steps and a playback cursor over them.
 *
 * The store is one object whose actions update its fields in place, so it is a class. Every
 * action that draws random numbers receives the draws as a parameter.
 */
module AlgorithmStore {

  import opened Common
  import opened Datasets
  import opened BubbleSteps
  import opened Bfs

  /** The three families an algorithm name can map to. */
  datatype AlgorithmType = Sorting | Graph | Tree

  const SortingNames: seq<string> := ["Bubble Sort", "Quick Sort", "Merge Sort"]
  const GraphNames: seq<string> := ["BFS", "DFS", "Dijkstra's Algorithm"]

  /**
   * The family of an algorithm name: a sorting name, a graph name, or anything else at all,
   * which falls through to the tree family.
   */
  function FamilyOf(name: string): (t: AlgorithmType)
    ensures t == Sorting <==> name in SortingNames
    ensures t == Graph <==> name in GraphNames
    ensures t == Tree <==> name !in SortingNames && name !in GraphNames
  {
    if name in SortingNames then Sorting
    else if name in GraphNames then Graph
    else Tree
  }

  /** One recorded step; the store keeps sorting and graph steps in the same list. */
  datatype Step = SortSnapshot(sort: SortStep) | BfsSnapshot(bfs: BfsStep)

  /** The graph part of the state: the data plus highlight fields the actions reset. */
  datatype GraphView = GraphView(data: GraphData, visited: seq<NodeId>, queue: seq<NodeId>, current: Option<NodeId>)

  /** The tree part of the state. */
  datatype TreeView = TreeView(root: Tree, visited: seq<int>, current: Option<int>)

  function SortSnapshots(s: seq<SortStep>): (r: seq<Step>)
    ensures |r| == |s|
    ensures forall k :: 0 <= k < |s| ==> r[k] == SortSnapshot(s[k])
  {
    seq(|s|, k requires 0 <= k < |s| => SortSnapshot(s[k]))
  }

  function BfsSnapshots(s: seq<BfsStep>): (r: seq<Step>)
    ensures |r| == |s|
    ensures forall k :: 0 <= k < |s| ==> r[k] == BfsSnapshot(s[k])
  {
    seq(|s|, k requires 0 <= k < |s| => BfsSnapshot(s[k]))
  }

  /** The steps are the bubble-sort recording of the array in their first snapshot. */
  predicate SortRecording(steps: seq<Step>)
  {
    && |steps| >= 1
    && steps[0].SortSnapshot?
    && steps == SortSnapshots(BubbleSortSteps(steps[0].sort.values))
  }

  /** A fresh bubble recording satisfies `SortRecording` and starts on its input. */
  lemma SortRecordingOf(arr: seq<int>)
    ensures SortRecording(SortSnapshots(BubbleSortSteps(arr)))
    ensures SortSnapshots(BubbleSortSteps(arr))[0] == SortSnapshot(SortStep(arr, [], []))
  {
  }

  /** How many random draws regenerating a family consumes: 15 values, none, or one per tree node. */
  function DrawsNeeded(t: AlgorithmType): nat
  {
    match t
    case Sorting => ArrayLength
    case Graph => 0
    case Tree => Pow2(TreeDepth) - 1
  }

  /** The array shown after moving the cursor onto `step`: a sorting step overwrites it. */
  function ShownArray(step: Step, values: seq<int>): (r: seq<int>)
    ensures step.SortSnapshot? ==> r == step.sort.values
    ensures step.BfsSnapshot? ==> r == values
  {
    match step
    case SortSnapshot(s) => s.values
    case BfsSnapshot(_) => values
  }

  class Store {
    var currentAlgorithm: Option<string>
    var algorithmType: Option<AlgorithmType>
    /** The `array` field of the source. */
    var values: seq<int>
    var graph: GraphView
    var tree: TreeView
    var steps: seq<Step>
    var currentStep: nat
    var isPlaying: bool
    var speed: int

    /** The name and the family agree; both are absent until the first selection. */
    predicate Coherent()
      reads this
    {
      && (currentAlgorithm.None? <==> algorithmType.None?)
      && (currentAlgorithm.Some? ==> algorithmType == Some(FamilyOf(currentAlgorithm.value)))
    }

    /**
     * The invariant every action keeps: the cursor is 0 or a valid index; in the sorting family
     * the steps are the bubble recording of their first array and the shown array is the one
     * under the cursor; in the graph family the graph is the built-in one and the steps are
     * its BFS recording.
     */
    predicate Valid()
      reads this
    {
      && Coherent()
      && (currentStep == 0 || currentStep < |steps|)
      && (algorithmType == Some(Sorting) ==>
            SortRecording(steps) && values == steps[currentStep].sort.values)
      && (algorithmType == Some(Graph) ==>
            graph.data == BuiltInGraph() && steps == BfsSnapshots(BfsSteps(graph.data.edges)))
    }

    /** The initial state of the store. */
    constructor ()
      ensures Valid()
      ensures currentAlgorithm == None && algorithmType == None
      ensures values == [] && steps == [] && currentStep == 0
      ensures graph == GraphView(GraphData([], []), [], [], None)
      ensures tree == TreeView(Nil, [], None)
      ensures !isPlaying && speed == 500
    {
      currentAlgorithm := None;
      algorithmType := None;
      values := [];
      graph := GraphView(GraphData([], []), [], [], None);
      tree := TreeView(Nil, [], None);
      steps := [];
      currentStep := 0;
      isPlaying := false;
      speed := 500;
    }

    /**
     * `setAlgorithm(name)`: record the name and its family, rewind, stop playback, then
     * regenerate the data for the new family.
     */
    method SetAlgorithm(name: string, draws: seq<real>)
      requires Valid() && UnitDraws(draws) && DrawsNeeded(FamilyOf(name)) <= |draws|
      modifies this
      ensures Valid()
      ensures currentAlgorithm == Some(name) && algorithmType == Some(FamilyOf(name))
      ensures currentStep == 0 && !isPlaying && speed == old(speed)
      ensures FamilyOf(name) == Sorting ==>
        && values == RandomArray(ArrayLength, draws)
        && steps == SortSnapshots(BubbleSortSteps(values))
        && graph == old(graph) && tree == old(tree)
      ensures FamilyOf(name) == Graph ==>
        && graph == GraphView(BuiltInGraph(), [], [], None)
        && steps == BfsSnapshots(BfsSteps(BuiltInGraph().edges))
        && values == old(values) && tree == old(tree)
      ensures FamilyOf(name) == Tree ==>
        && tree == TreeView(RandomBST(TreeDepth, draws, 0), [], None)
        && steps == old(steps) && values == old(values) && graph == old(graph)
    {
      currentAlgorithm := Some(name);
      algorithmType := Some(FamilyOf(name));
      currentStep := 0;
      isPlaying := false;
      GenerateNewData(draws);
    }

    /**
     * `generateNewData()`: regenerate the data of the current family and rewind. The tree
     * family draws a new tree but keeps the old steps; with no family selected nothing
     * changes. The selection, the play flag and the speed are outside its frame.
     */
    method GenerateNewData(draws: seq<real>)
      requires Coherent() && (algorithmType.None? ==> Valid())
      requires UnitDraws(draws) && (algorithmType.Some? ==> DrawsNeeded(algorithmType.value) <= |draws|)
      modifies this`values, this`graph, this`tree, this`steps, this`currentStep
      ensures Valid()
      ensures algorithmType.None? ==>
        values == old(values) && graph == old(graph) && tree == old(tree)
        && steps == old(steps) && currentStep == old(currentStep)
      ensures algorithmType.Some? ==> currentStep == 0
      ensures algorithmType == Some(Sorting) ==>
        && values == RandomArray(ArrayLength, draws)
        && steps == SortSnapshots(BubbleSortSteps(values))
        && graph == old(graph) && tree == old(tree)
      ensures algorithmType == Some(Graph) ==>
        && graph == GraphView(BuiltInGraph(), [], [], None)
        && steps == BfsSnapshots(BfsSteps(BuiltInGraph().edges))
        && values == old(values) && tree == old(tree)
      ensures algorithmType == Some(Tree) ==>
        && tree == TreeView(RandomBST(TreeDepth, draws, 0), [], None)
        && steps == old(steps) && values == old(values) && graph == old(graph)
    {
      if algorithmType == Some(Sorting) {
        RegenerateArray(draws);
      } else if algorithmType == Some(Graph) {
        RegenerateGraph();
      } else if algorithmType == Some(Tree) {
        RegenerateTree(draws);
      }
    }

    /** The sorting branch: 15 fresh values and their bubble-sort recording. */
    method RegenerateArray(draws: seq<real>)
      requires Coherent() && algorithmType == Some(Sorting)
      requires UnitDraws(draws) && ArrayLength <= |draws|
      modifies this`values, this`steps, this`currentStep
      ensures Valid() && currentStep == 0
      ensures values == RandomArray(ArrayLength, draws) && steps == SortSnapshots(BubbleSortSteps(values))
    {
      var newArray := RandomArray(ArrayLength, draws);
      var recorded := GenerateBubbleSortSteps(newArray);
      SortRecordingOf(newArray);
      values, steps, currentStep := newArray, SortSnapshots(recorded), 0;
    }

    /** The graph branch: the built-in graph, cleared highlights, and its BFS recording. */
    method RegenerateGraph()
      requires Coherent() && algorithmType == Some(Graph)
      modifies this`graph, this`steps, this`currentStep
      ensures Valid() && currentStep == 0
      ensures graph == GraphView(BuiltInGraph(), [], [], None)
      ensures steps == BfsSnapshots(BfsSteps(BuiltInGraph().edges))
    {
      var data := BuiltInGraph();
      var recorded := GenerateBfsSteps(data);
      graph, steps, currentStep := GraphView(data, [], [], None), BfsSnapshots(recorded), 0;
    }

    /** The tree branch: a fresh perfect tree of depth 3 and cleared highlights; the steps stay. */
    method RegenerateTree(draws: seq<real>)
      requires Coherent() && algorithmType == Some(Tree)
      requires UnitDraws(draws) && Pow2(TreeDepth) - 1 <= |draws|
      modifies this`tree, this`currentStep
      ensures Valid() && currentStep == 0
      ensures tree == TreeView(RandomBST(TreeDepth, draws, 0), [], None)
    {
      assert Pow2(TreeDepth) == 8;
      tree, currentStep := TreeView(RandomBST(TreeDepth, draws, 0), [], None), 0;
    }

    /**
     * `nextStep()`: below the last index, advance the cursor and show the new step's array;
     * at or past it, leave the cursor and stop playback (a no-op when already stopped).
     */
    method NextStep()
      requires Valid()
      modifies this
      ensures Valid()
      ensures old(currentStep) + 1 < |steps| ==>
        currentStep == old(currentStep) + 1 && values == ShownArray(steps[currentStep], old(values))
        && isPlaying == old(isPlaying)
      ensures old(currentStep) + 1 >= |steps| ==>
        currentStep == old(currentStep) && values == old(values) && !isPlaying
      ensures currentAlgorithm == old(currentAlgorithm) && algorithmType == old(algorithmType)
      ensures steps == old(steps) && graph == old(graph) && tree == old(tree) && speed == old(speed)
    {
      if currentStep < |steps| - 1 {
        values := ShownArray(steps[currentStep + 1], values);
        currentStep := currentStep + 1;
      } else if isPlaying {
        isPlaying := false;
      }
    }

    /** `previousStep()`: above 0, move the cursor back and show that step's array; else nothing. */
    method PreviousStep()
      requires Valid()
      modifies this
      ensures Valid()
      ensures steps == old(steps) && graph == old(graph) && tree == old(tree) && speed == old(speed)
      ensures old(currentStep) > 0 ==>
        currentStep == old(currentStep) - 1 && values == ShownArray(steps[currentStep], old(values))
      ensures old(currentStep) == 0 ==> currentStep == 0 && values == old(values)
      ensures isPlaying == old(isPlaying)
      ensures currentAlgorithm == old(currentAlgorithm) && algorithmType == old(algorithmType)
    {
      if currentStep > 0 {
        values := ShownArray(steps[currentStep - 1], values);
        currentStep := currentStep - 1;
      }
    }

    /** `setIsPlaying(playing)`. */
    method SetIsPlaying(playing: bool)
      requires Valid()
      modifies this`isPlaying
      ensures Valid() && isPlaying == playing
    {
      isPlaying := playing;
    }

    /** `setSpeed(speed)`: any number is accepted. */
    method SetSpeed(speed: int)
      requires Valid()
      modifies this`speed
      ensures Valid() && this.speed == speed
    {
      this.speed := speed;
    }

    /**
     * The play/pause button of the controls: pressing it on the last step regenerates first;
     * then the play flag is flipped.
     */
    method TogglePlay(draws: seq<real>)
      requires Valid() && UnitDraws(draws)
      requires algorithmType.Some? ==> DrawsNeeded(algorithmType.value) <= |draws|
      modifies this
      ensures Valid() && isPlaying == !old(isPlaying) && speed == old(speed)
      ensures currentAlgorithm == old(currentAlgorithm) && algorithmType == old(algorithmType)
      ensures old(currentStep) + 1 != |old(steps)| || algorithmType.None? ==>
        && currentStep == old(currentStep) && steps == old(steps) && values == old(values)
        && graph == old(graph) && tree == old(tree)
      ensures old(currentStep) + 1 == |old(steps)| && algorithmType.Some? ==> currentStep == 0
      ensures old(currentStep) + 1 == |old(steps)| && algorithmType == Some(Sorting) ==>
        && values == RandomArray(ArrayLength, draws)
        && steps == SortSnapshots(BubbleSortSteps(values))
        && graph == old(graph) && tree == old(tree)
      ensures old(currentStep) + 1 == |old(steps)| && algorithmType == Some(Graph) ==>
        && graph == GraphView(BuiltInGraph(), [], [], None)
        && steps == BfsSnapshots(BfsSteps(BuiltInGraph().edges))
        && values == old(values) && tree == old(tree)
      ensures old(currentStep) + 1 == |old(steps)| && algorithmType == Some(Tree) ==>
        && tree == TreeView(RandomBST(TreeDepth, draws, 0), [], None)
        && steps == old(steps) && values == old(values) && graph == old(graph)
    {
      if currentStep == |steps| - 1 {
        GenerateNewData(draws);
      }
      isPlaying := !isPlaying;
    }
  }
}
