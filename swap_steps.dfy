/**
 * The provider's swap-only bubble-sort recorder (`generateBubbleSortSteps` in the React
 * context).
 *
 * It runs the same nested loop as the store's recorder but pushes a snapshot only after a
 * swap, so the recording is the input followed by the array after each swap. `SwapPass` and
 * `SwapPasses` describe what the inner and outer loops record; `GenerateSwapSteps` is the loop
 * itself. The recording is tied to the store's recorder: it is exactly the sequence of arrays
 * of the store's settled snapshots.
 */
module SwapSteps {

  import opened Common
  import opened BubbleSteps

  /** The arrays a stretch of the loops records, and the array it leaves behind. */
  datatype Trace = Trace(snapshots: seq<seq<int>>, values: seq<int>)

  /** What the inner loop records for `j` running from `j` while `j < m`, starting on `a`. */
  function SwapPass(a: seq<int>, j: nat, m: nat): (r: Trace)
    requires m < |a|
    ensures |r.values| == |a|
    decreases m - j
  {
    if j >= m then Trace([], a)
    else if a[j] > a[j + 1] then
      var b := Swap(a, j);
      var rest := SwapPass(b, j + 1, m);
      Trace([b] + rest.snapshots, rest.values)
    else SwapPass(a, j + 1, m)
  }

  /** What the outer loop records for `i` running from `i` while `i < n - 1`, starting on `a`. */
  function SwapPasses(a: seq<int>, i: nat): (r: Trace)
    ensures |r.values| == |a|
    decreases |a| - i
  {
    if i + 1 >= |a| then Trace([], a)
    else
      var pass := SwapPass(a, 0, |a| - i - 1);
      var rest := SwapPasses(pass.values, i + 1);
      Trace(pass.snapshots + rest.snapshots, rest.values)
  }

  /** The whole recording: a copy of the input, then the array after every swap. */
  function SwapOnlySteps(arr: seq<int>): seq<seq<int>>
  {
    [arr] + SwapPasses(arr, 0).snapshots
  }

  /** The recorder as the source runs it: nested loops over a copy, pushing after each swap. */
  method GenerateSwapSteps(arr: seq<int>) returns (steps: seq<seq<int>>)
    ensures steps == SwapOnlySteps(arr)
    ensures |steps| >= 1 && steps[0] == arr
  {
    steps := [arr];
    var n := |arr|;
    var work := new int[n](k requires 0 <= k < n => arr[k]);
    assert work[..] == arr;
    var i := 0;
    while i + 1 < n
      invariant 0 <= i && work.Length == n
      invariant steps + SwapPasses(work[..], i).snapshots == SwapOnlySteps(arr)
      decreases n - i
    {
      ghost var pass := SwapPass(work[..], 0, n - i - 1);
      ghost var tail := SwapPasses(pass.values, i + 1).snapshots;
      ghost var done := steps;
      steps := RecordSwaps(work, n - i - 1, steps);
      AppendAssoc(done, pass.snapshots, tail);
      i := i + 1;
    }
  }

  /** One round of the outer loop: the inner `for j` loop with `j < m`, on `work` in place. */
  method RecordSwaps(work: array<int>, m: nat, steps: seq<seq<int>>) returns (steps': seq<seq<int>>)
    requires m < work.Length
    modifies work
    ensures steps' == steps + SwapPass(old(work[..]), 0, m).snapshots
    ensures work[..] == SwapPass(old(work[..]), 0, m).values
  {
    steps' := steps;
    var j := 0;
    while j < m
      invariant 0 <= j <= m
      invariant SwapPass(work[..], j, m).values == SwapPass(old(work[..]), 0, m).values
      invariant steps' + SwapPass(work[..], j, m).snapshots == steps + SwapPass(old(work[..]), 0, m).snapshots
    {
      ghost var before, done := work[..], steps';
      if work[j] > work[j + 1] {
        work[j], work[j + 1] := work[j + 1], work[j];
        assert work[..] == Swap(before, j);
        steps' := steps' + [work[..]];
        AppendAssoc(done, [work[..]], SwapPass(work[..], j + 1, m).snapshots);
      }
      j := j + 1;
    }
  }

  // ------------------------------------------------------------ every step is one swap

  /** `b` is `a` with one adjacent out-of-order pair exchanged. */
  predicate InversionSwap(a: seq<int>, b: seq<int>)
  {
    exists j: nat :: j + 1 < |a| && a[j] > a[j + 1] && b == Swap(a, j)
  }

  /** Each array in `s` is the one before it with one adjacent out-of-order pair exchanged. */
  predicate SwapChain(s: seq<seq<int>>)
  {
    forall k :: 1 <= k < |s| ==> InversionSwap(s[k - 1], s[k])
  }

  lemma SwapChainCons(a: seq<int>, s: seq<seq<int>>)
    requires |s| > 0 && InversionSwap(a, s[0]) && SwapChain(s)
    ensures SwapChain([a] + s)
  {
    var t := [a] + s;
    forall k | 1 <= k < |t| ensures InversionSwap(t[k - 1], t[k]) {
      if k >= 2 {
        assert t[k - 1] == s[k - 2] && t[k] == s[k - 1];
      }
    }
  }

  lemma SwapChainJoin(x: seq<seq<int>>, y: seq<seq<int>>)
    requires |x| > 0 && SwapChain(x) && SwapChain([Last(x)] + y)
    ensures SwapChain(x + y)
  {
    var t := x + y;
    var u := [Last(x)] + y;
    forall k | 1 <= k < |t| ensures InversionSwap(t[k - 1], t[k]) {
      if k >= |x| {
        assert t[k - 1] == u[k - |x|] && t[k] == u[k - |x| + 1];
      }
    }
  }

  /** After a start array `a`, what a pass records is a swap chain ending in the array it leaves. */
  lemma {:induction false} SwapPassChain(a: seq<int>, j: nat, m: nat)
    requires m < |a|
    ensures SwapChain([a] + SwapPass(a, j, m).snapshots)
    ensures Last([a] + SwapPass(a, j, m).snapshots) == SwapPass(a, j, m).values
    decreases m - j
  {
    if j < m {
      if a[j] > a[j + 1] {
        var b := Swap(a, j);
        var rest := SwapPass(b, j + 1, m).snapshots;
        SwapPassChain(b, j + 1, m);
        assert InversionSwap(a, b);
        SwapChainCons(a, [b] + rest);
        assert [a] + SwapPass(a, j, m).snapshots == [a] + ([b] + rest);
        LastAfterPrefix([a], b, rest);
      } else {
        SwapPassChain(a, j + 1, m);
      }
    }
  }

  lemma {:induction false} SwapPassesChain(a: seq<int>, i: nat)
    ensures SwapChain([a] + SwapPasses(a, i).snapshots)
    ensures Last([a] + SwapPasses(a, i).snapshots) == SwapPasses(a, i).values
    decreases |a| - i
  {
    if i + 1 < |a| {
      var pass := SwapPass(a, 0, |a| - i - 1);
      var rest := SwapPasses(pass.values, i + 1).snapshots;
      SwapPassChain(a, 0, |a| - i - 1);
      SwapPassesChain(pass.values, i + 1);
      var front := [a] + pass.snapshots;
      SwapChainJoin(front, rest);
      AppendAssoc([a], pass.snapshots, rest);
      assert front == front[..|front| - 1] + [pass.values];
      AppendAssoc(front[..|front| - 1], [pass.values], rest);
      LastAfterPrefix(front[..|front| - 1], pass.values, rest);
    }
  }

  /**
   * The recording starts with the input, and every later array is the one before it with
   * exactly one adjacent out-of-order pair exchanged.
   */
  lemma SwapStepsChain(arr: seq<int>)
    ensures SwapOnlySteps(arr)[0] == arr
    ensures SwapChain(SwapOnlySteps(arr))
  {
    SwapPassesChain(arr, 0);
  }

  // ------------------------------------------------------------ link to the store's recorder

  /** The arrays of the settled snapshots (nothing compared or swapping), in order. */
  function SettledArrays(steps: seq<SortStep>): seq<seq<int>>
  {
    if steps == [] then []
    else (if steps[0].comparing == [] then [steps[0].values] else []) + SettledArrays(steps[1..])
  }

  lemma {:induction false} SettledArraysAppend(x: seq<SortStep>, y: seq<SortStep>)
    ensures SettledArrays(x + y) == SettledArrays(x) + SettledArrays(y)
  {
    if x == [] {
      assert x + y == y;
    } else {
      var xy := x + y;
      assert xy[0] == x[0] && xy[1..] == x[1..] + y;
      SettledArraysAppend(x[1..], y);
      var head := if x[0].comparing == [] then [x[0].values] else [];
      AppendAssoc(head, SettledArrays(x[1..]), SettledArrays(y));
    }
  }

  lemma {:induction false} SwapPassMatches(a: seq<int>, j: nat, m: nat)
    requires m < |a|
    ensures SwapPass(a, j, m).snapshots == SettledArrays(PassRun(a, j, m).steps)
    ensures |SwapPass(a, j, m).snapshots| == SwapCount(PassRun(a, j, m).steps)
    ensures SwapPass(a, j, m).values == PassRun(a, j, m).values
    decreases m - j
  {
    if j < m {
      PassRunUnfold(a, j, m);
      if a[j] > a[j + 1] {
        var b := Swap(a, j);
        var recorded := [SortStep(a, [j, j + 1], []), SortStep(a, [j, j + 1], [j, j + 1]), SortStep(b, [], [])];
        assert SettledArrays(recorded[2..]) == [b];
        assert SettledArrays(recorded[1..]) == [b];
        assert SettledArrays(recorded) == [b];
        assert SwapCount(recorded[2..]) == 0;
        assert SwapCount(recorded) == 1;
        SwapPassMatches(b, j + 1, m);
        SettledArraysAppend(recorded, PassRun(b, j + 1, m).steps);
        CountsAppend(recorded, PassRun(b, j + 1, m).steps);
      } else {
        var recorded := [SortStep(a, [j, j + 1], [])];
        assert SettledArrays(recorded) == [] && SwapCount(recorded) == 0;
        SwapPassMatches(a, j + 1, m);
        SettledArraysAppend(recorded, PassRun(a, j + 1, m).steps);
        CountsAppend(recorded, PassRun(a, j + 1, m).steps);
      }
    }
  }

  lemma {:induction false} SwapPassesMatch(a: seq<int>, i: nat)
    ensures SwapPasses(a, i).snapshots == SettledArrays(PassesRun(a, i).steps)
    ensures |SwapPasses(a, i).snapshots| == SwapCount(PassesRun(a, i).steps)
    ensures SwapPasses(a, i).values == PassesRun(a, i).values
    decreases |a| - i
  {
    if i + 1 < |a| {
      var pass := PassRun(a, 0, |a| - i - 1);
      SwapPassMatches(a, 0, |a| - i - 1);
      SwapPassesMatch(pass.values, i + 1);
      SettledArraysAppend(pass.steps, PassesRun(pass.values, i + 1).steps);
      CountsAppend(pass.steps, PassesRun(pass.values, i + 1).steps);
    }
  }

  /**
   * The provider's recording is exactly the store's recording with the comparing and swapping
   * snapshots dropped, and it has one array per swap the store records, plus the input.
   */
  lemma SwapStepsMatchStore(arr: seq<int>)
    ensures SwapOnlySteps(arr) == SettledArrays(BubbleSortSteps(arr))
    ensures |SwapOnlySteps(arr)| == 1 + SwapCount(BubbleSortSteps(arr))
  {
    var first := SortStep(arr, [], []);
    SwapPassesMatch(arr, 0);
    SettledArraysAppend([first], PassesRun(arr, 0).steps);
    CountsAppend([first], PassesRun(arr, 0).steps);
    assert SettledArrays([first]) == [arr] && SwapCount([first]) == 0;
  }

  // ------------------------------------------------------------ result and length

  /** The last array is the input sorted ascending, and every array is a permutation of it. */
  lemma SwapStepsSort(arr: seq<int>)
    ensures Sorted(Last(SwapOnlySteps(arr))) && multiset(Last(SwapOnlySteps(arr))) == multiset(arr)
    ensures forall k :: 0 <= k < |SwapOnlySteps(arr)| ==> multiset(SwapOnlySteps(arr)[k]) == multiset(arr)
  {
    SwapPassesChain(arr, 0);
    SwapPassesMatch(arr, 0);
    PassesRunSorts(arr, 0);
    PassesRunPermutes(arr, 0);
    var s := SwapOnlySteps(arr);
    forall k | 0 <= k < |s| ensures multiset(s[k]) == multiset(arr) {
      ChainPermutes(s, k);
    }
  }

  lemma {:induction false} ChainPermutes(s: seq<seq<int>>, k: nat)
    requires SwapChain(s) && k < |s|
    ensures multiset(s[k]) == multiset(s[0])
  {
    if k > 0 {
      ChainPermutes(s, k - 1);
      var j: nat :| j + 1 < |s[k - 1]| && s[k - 1][j] > s[k - 1][j + 1] && s[k] == Swap(s[k - 1], j);
      SwapPermutes(s[k - 1], j);
    }
  }

  lemma {:induction false} SwapPassBound(a: seq<int>, j: nat, m: nat)
    requires j <= m < |a|
    ensures |SwapPass(a, j, m).snapshots| <= m - j
    decreases m - j
  {
    if j < m {
      if a[j] > a[j + 1] {
        SwapPassBound(Swap(a, j), j + 1, m);
      } else {
        SwapPassBound(a, j + 1, m);
      }
    }
  }

  lemma {:induction false} SwapPassesBound(a: seq<int>, i: nat)
    ensures |SwapPasses(a, i).snapshots| <= |LoopPairs(i, |a|)|
    decreases |a| - i
  {
    if i + 1 < |a| {
      var pass := SwapPass(a, 0, |a| - i - 1);
      SwapPassBound(a, 0, |a| - i - 1);
      InnerPairsLength(0, |a| - i - 1);
      SwapPassesBound(pass.values, i + 1);
    }
  }

  /** One array per swap plus the input, so at most `1 + n(n-1)/2` arrays. */
  lemma SwapStepsLength(arr: seq<int>)
    ensures |SwapOnlySteps(arr)| <= 1 + |arr| * (|arr| - 1) / 2
  {
    SwapPassesBound(arr, 0);
    LoopPairsLength(0, |arr|);
  }
}
