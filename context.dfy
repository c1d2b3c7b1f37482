/**
 * The React context provider: a second, self-contained playback engine with its own
 * swap-only bubble-sort recording.
 *
 * The provider's state cells become the fields of a class and each handler a method that
 * runs its updates in order. Random draws are a parameter.
 */
module AlgorithmContext {

  import opened Common
  import opened Datasets
  import opened SwapSteps

  /** The only name the provider records steps for. */
  const BubbleSortName: string := "Bubble Sort"

  /** The recording `generateNewData` stores for the selection `algorithm` and data `data`. */
  function Animation(algorithm: Option<string>, data: seq<int>): (r: seq<seq<int>>)
    ensures |r| >= 1 && r[0] == data
    ensures algorithm != Some(BubbleSortName) ==> r == [data]
  {
    if algorithm == Some(BubbleSortName) then SwapOnlySteps(data) else [data]
  }

  class Provider {
    var currentAlgorithm: Option<string>
    var visualizationState: seq<int>
    var animationSteps: seq<seq<int>>
    var currentStep: nat
    var isPlaying: bool
    var speed: int

    /**
     * What every handler keeps, including the selection handler as written: the cursor is 0
     * or a valid index, and once a recording exists the displayed array is the one under the
     * cursor. The stepping handlers need nothing more.
     */
    predicate Shown()
      reads this
    {
      && (currentStep == 0 || currentStep < |animationSteps|)
      && (|animationSteps| >= 1 ==> visualizationState == animationSteps[currentStep])
    }

    /**
     * `Shown`, and moreover the recording is the one for the current selection and its first
     * array, and after a selection a recording exists. The corrected selection handler keeps
     * it; the one as written does not (see `StaleSelectionDropsRecording`).
     */
    predicate Valid()
      reads this
    {
      && Shown()
      && (currentAlgorithm.Some? ==> |animationSteps| >= 1)
      && (|animationSteps| >= 1 ==> animationSteps == Animation(currentAlgorithm, animationSteps[0]))
    }

    /** The initial state cells. */
    constructor ()
      ensures Valid()
      ensures currentAlgorithm == None && visualizationState == [] && animationSteps == []
      ensures currentStep == 0 && !isPlaying && speed == 500
    {
      currentAlgorithm := None;
      visualizationState := [];
      animationSteps := [];
      currentStep := 0;
      isPlaying := false;
      speed := 500;
    }

    /**
     * `generateNewData()`: show 15 fresh values, rewind, and store the swap-only recording for
     * bubble sort or the single-step list for anything else.
     */
    method GenerateNewData(draws: seq<real>)
      requires UnitDraws(draws) && ArrayLength <= |draws|
      modifies this`visualizationState, this`animationSteps, this`currentStep
      ensures Valid()
      ensures visualizationState == RandomArray(ArrayLength, draws) && currentStep == 0
      ensures animationSteps == Animation(currentAlgorithm, visualizationState)
    {
      Regenerate(currentAlgorithm, draws);
    }

    /**
     * The body of `generateNewData`, given the selection it reads. The handler reads the
     * selection of the render it was created in, which is not always the current field.
     */
    method Regenerate(selection: Option<string>, draws: seq<real>)
      requires UnitDraws(draws) && ArrayLength <= |draws|
      modifies this`visualizationState, this`animationSteps, this`currentStep
      ensures visualizationState == RandomArray(ArrayLength, draws) && currentStep == 0
      ensures animationSteps == Animation(selection, visualizationState)
      ensures |animationSteps| >= 1 && visualizationState == animationSteps[0]
    {
      var newData := RandomArray(ArrayLength, draws);
      visualizationState := newData;
      currentStep := 0;
      if selection == Some(BubbleSortName) {
        var steps := GenerateSwapSteps(newData);
        animationSteps := steps;
      } else {
        animationSteps := [newData];
      }
    }

    /**
     * `nextStep()`: below the last index, advance and display the next array; otherwise stop
     * playback, whatever its previous value.
     */
    method NextStep()
      requires Shown()
      modifies this
      ensures Shown() && (old(Valid()) ==> Valid())
      ensures old(currentStep) + 1 < |animationSteps| ==>
        currentStep == old(currentStep) + 1 && visualizationState == animationSteps[currentStep]
        && isPlaying == old(isPlaying)
      ensures old(currentStep) + 1 >= |animationSteps| ==>
        currentStep == old(currentStep) && visualizationState == old(visualizationState) && !isPlaying
      ensures animationSteps == old(animationSteps) && currentAlgorithm == old(currentAlgorithm)
      ensures speed == old(speed)
    {
      if currentStep < |animationSteps| - 1 {
        currentStep := currentStep + 1;
        visualizationState := animationSteps[currentStep];
      } else {
        isPlaying := false;
      }
    }

    /** `previousStep()`: above 0, step back and display that array; at 0, nothing. */
    method PreviousStep()
      requires Shown()
      modifies this
      ensures Shown() && (old(Valid()) ==> Valid())
      ensures animationSteps == old(animationSteps) && currentAlgorithm == old(currentAlgorithm)
      ensures old(currentStep) > 0 ==>
        currentStep == old(currentStep) - 1 && visualizationState == animationSteps[currentStep]
      ensures old(currentStep) == 0 ==>
        currentStep == 0 && visualizationState == old(visualizationState)
      ensures isPlaying == old(isPlaying) && speed == old(speed)
    {
      if currentStep > 0 {
        currentStep := currentStep - 1;
        visualizationState := animationSteps[currentStep];
      }
    }

    /**
     * `handleAlgorithmSelect(algorithm)` as written: select, stop playback, rewind, then run
     * the `generateNewData` of the same render, which still sees the previous selection. The
     * recording stored is the one for the previous selection, not for `algorithm`.
     */
    method HandleAlgorithmSelectAsWritten(algorithm: string, draws: seq<real>)
      requires UnitDraws(draws) && ArrayLength <= |draws|
      modifies this
      ensures currentAlgorithm == Some(algorithm) && !isPlaying && currentStep == 0
      ensures visualizationState == RandomArray(ArrayLength, draws)
      ensures animationSteps == Animation(old(currentAlgorithm), visualizationState)
      ensures Shown() && |animationSteps| >= 1
      ensures speed == old(speed)
    {
      var captured := currentAlgorithm;
      currentAlgorithm := Some(algorithm);
      isPlaying := false;
      currentStep := 0;
      Regenerate(captured, draws);
    }

    /**
     * `handleAlgorithmSelect(algorithm)` as intended: select, stop playback, rewind, then
     * regenerate for the new selection.
     */
    method HandleAlgorithmSelect(algorithm: string, draws: seq<real>)
      requires UnitDraws(draws) && ArrayLength <= |draws|
      modifies this
      ensures Valid()
      ensures currentAlgorithm == Some(algorithm) && !isPlaying && currentStep == 0
      ensures visualizationState == RandomArray(ArrayLength, draws)
      ensures animationSteps == Animation(Some(algorithm), visualizationState)
      ensures speed == old(speed)
    {
      currentAlgorithm := Some(algorithm);
      isPlaying := false;
      currentStep := 0;
      GenerateNewData(draws);
    }
  }

  /**
   * What the stale read costs: on data that is not already sorted, the recording stored when
   * "Bubble Sort" is picked after any other selection (or none) is the data alone, while the
   * recording for "Bubble Sort" has more than that one snapshot.
   */
  lemma StaleSelectionDropsRecording(previous: Option<string>, data: seq<int>)
    requires previous != Some(BubbleSortName) && !Sorted(data)
    ensures Animation(previous, data) == [data]
    ensures Animation(Some(BubbleSortName), data) != [data]
    ensures |Animation(Some(BubbleSortName), data)| >= 2
  {
    SwapStepsSort(data);
  }
}
