/**
 * The store's bubble-sort step recorder (`generateBubbleSortSteps` in the store).
 *
 * The recorder runs the classic, unoptimised nested loop over a copy of its input and
 * records three kinds of snapshot: a comparing step for every index pair it looks at, and,
 * when the pair is out of order, a swapping step before the swap and a settled step after it.
 *
 * `PassRun` and `PassesRun` describe what the inner and the outer loop record from a given
 * array; `GenerateBubbleSortSteps` is the loop itself, proved to record exactly that.
 */
module BubbleSteps {

  import opened Common

  /** One snapshot: the array at that moment and the highlighted index pairs. */
  datatype SortStep = SortStep(values: seq<int>, comparing: seq<int>, swapping: seq<int>)

  /** The snapshots a stretch of the loops records, and the array it leaves behind. */
  datatype Run = Run(steps: seq<SortStep>, values: seq<int>)

  /** `a` with positions `j` and `j + 1` exchanged. */
  function Swap(a: seq<int>, j: nat): (r: seq<int>)
    requires j + 1 < |a|
    ensures |r| == |a| && r[j] == a[j + 1] && r[j + 1] == a[j]
    ensures forall k :: 0 <= k < |a| && k != j && k != j + 1 ==> r[k] == a[k]
  {
    a[j := a[j + 1]][j + 1 := a[j]]
  }

  /** What the inner loop records for `j` running from `j` while `j < m`, starting on `a`. */
  function PassRun(a: seq<int>, j: nat, m: nat): (r: Run)
    requires m < |a|
    ensures |r.values| == |a|
    decreases m - j
  {
    if j >= m then Run([], a)
    else if a[j] > a[j + 1] then
      var b := Swap(a, j);
      var rest := PassRun(b, j + 1, m);
      Run([SortStep(a, [j, j + 1], []), SortStep(a, [j, j + 1], [j, j + 1]), SortStep(b, [], [])]
          + rest.steps, rest.values)
    else
      var rest := PassRun(a, j + 1, m);
      Run([SortStep(a, [j, j + 1], [])] + rest.steps, rest.values)
  }

  /** What the outer loop records for `i` running from `i` while `i < n - 1`, starting on `a`. */
  function PassesRun(a: seq<int>, i: nat): (r: Run)
    ensures |r.values| == |a|
    decreases |a| - i
  {
    if i + 1 >= |a| then Run([], a)
    else
      var pass := PassRun(a, 0, |a| - i - 1);
      var rest := PassesRun(pass.values, i + 1);
      Run(pass.steps + rest.steps, rest.values)
  }

  /** The whole recording: the untouched input first, then everything the loops record. */
  function BubbleSortSteps(arr: seq<int>): seq<SortStep>
  {
    [SortStep(arr, [], [])] + PassesRun(arr, 0).steps
  }

  /** The recorder as the source runs it: nested loops that swap in place and push snapshots. */
  method GenerateBubbleSortSteps(arr: seq<int>) returns (steps: seq<SortStep>)
    ensures steps == BubbleSortSteps(arr)
    ensures |steps| >= 1 && steps[0] == SortStep(arr, [], [])
    ensures Sorted(Last(steps).values) && multiset(Last(steps).values) == multiset(arr)
  {
    steps := [SortStep(arr, [], [])];
    var n := |arr|;
    var work := new int[n](k requires 0 <= k < n => arr[k]);
    assert work[..] == arr;
    var i := 0;
    while i + 1 < n
      invariant 0 <= i && work.Length == n
      invariant steps + PassesRun(work[..], i).steps == BubbleSortSteps(arr)
      decreases n - i
    {
      ghost var pass := PassRun(work[..], 0, n - i - 1);
      ghost var tail := PassesRun(pass.values, i + 1).steps;
      ghost var done := steps;
      steps := RecordPass(work, n - i - 1, steps);
      AppendAssoc(done, pass.steps, tail);
      i := i + 1;
    }
    BubbleSortSorts(arr);
  }

  /** One round of the outer loop: the inner `for j` loop with `j < m`, on `work` in place. */
  method RecordPass(work: array<int>, m: nat, steps: seq<SortStep>) returns (steps': seq<SortStep>)
    requires m < work.Length
    modifies work
    ensures steps' == steps + PassRun(old(work[..]), 0, m).steps
    ensures work[..] == PassRun(old(work[..]), 0, m).values
  {
    steps' := steps;
    var j := 0;
    while j < m
      invariant 0 <= j <= m
      invariant PassRun(work[..], j, m).values == PassRun(old(work[..]), 0, m).values
      invariant steps' + PassRun(work[..], j, m).steps == steps + PassRun(old(work[..]), 0, m).steps
    {
      ghost var before, done := work[..], steps';
      PassRunUnfold(before, j, m);
      steps' := steps' + [SortStep(work[..], [j, j + 1], [])];
      if work[j] > work[j + 1] {
        steps' := steps' + [SortStep(work[..], [j, j + 1], [j, j + 1])];
        work[j], work[j + 1] := work[j + 1], work[j];
        assert work[..] == Swap(before, j);
        steps' := steps' + [SortStep(work[..], [], [])];
        ghost var recorded := [SortStep(before, [j, j + 1], []), SortStep(before, [j, j + 1], [j, j + 1]),
                               SortStep(work[..], [], [])];
        assert steps' == done + recorded;
        AppendAssoc(done, recorded, PassRun(work[..], j + 1, m).steps);
      } else {
        AppendAssoc(done, [SortStep(before, [j, j + 1], [])], PassRun(work[..], j + 1, m).steps);
      }
      j := j + 1;
    }
  }

  /** One iteration of the inner loop: what it records, then the rest of the pass. */
  lemma PassRunUnfold(a: seq<int>, j: nat, m: nat)
    requires j < m < |a|
    ensures PassRun(a, j, m).steps
      == (if a[j] > a[j + 1]
          then [SortStep(a, [j, j + 1], []), SortStep(a, [j, j + 1], [j, j + 1]), SortStep(Swap(a, j), [], [])]
          else [SortStep(a, [j, j + 1], [])])
         + PassRun(if a[j] > a[j + 1] then Swap(a, j) else a, j + 1, m).steps
    ensures PassRun(a, j, m).values == PassRun(if a[j] > a[j + 1] then Swap(a, j) else a, j + 1, m).values
  {
  }

  // ------------------------------------------------------------ the array at the end

  /** After a prefix ending in `s`, the last snapshot of a pass shows the array it leaves. */
  lemma {:induction false} PassRunLast(s: SortStep, j: nat, m: nat)
    requires m < |s.values|
    ensures Last([s] + PassRun(s.values, j, m).steps).values == PassRun(s.values, j, m).values
    decreases m - j
  {
    var a := s.values;
    if j < m {
      PassRunUnfold(a, j, m);
      if a[j] > a[j + 1] {
        var settled := SortStep(Swap(a, j), [], []);
        var rest := PassRun(settled.values, j + 1, m).steps;
        var front := [s, SortStep(a, [j, j + 1], []), SortStep(a, [j, j + 1], [j, j + 1])];
        PassRunLast(settled, j + 1, m);
        assert [s] + PassRun(a, j, m).steps == front + [settled] + rest;
        LastAfterPrefix(front, settled, rest);
      } else {
        var compare := SortStep(a, [j, j + 1], []);
        var rest := PassRun(a, j + 1, m).steps;
        PassRunLast(compare, j + 1, m);
        assert [s] + PassRun(a, j, m).steps == [s] + [compare] + rest;
        LastAfterPrefix([s], compare, rest);
      }
    }
  }

  lemma {:induction false} PassesRunLast(s: SortStep, i: nat)
    ensures Last([s] + PassesRun(s.values, i).steps).values == PassesRun(s.values, i).values
    decreases |s.values| - i
  {
    var a := s.values;
    if i + 1 < |a| {
      var pass := PassRun(a, 0, |a| - i - 1);
      PassRunLast(s, 0, |a| - i - 1);
      var front := [s] + pass.steps;
      PassesRunLast(Last(front), i + 1);
      var rest := PassesRun(pass.values, i + 1).steps;
      AppendAssoc([s], pass.steps, rest);
      LastJoin(front, rest);
    }
  }

  // ------------------------------------------------------------ sortedness

  /** Every element up to position `m` is at most every element after it. */
  predicate Boundary(a: seq<int>, m: nat)
  {
    forall k, l :: 0 <= k <= m < l < |a| ==> a[k] <= a[l]
  }

  /** The suffix from `p` is sorted and holds the largest elements. */
  predicate Settled(a: seq<int>, p: nat)
  {
    && p <= |a|
    && (forall k, l :: p <= k < l < |a| ==> a[k] <= a[l])
    && (forall k, l :: 0 <= k < p <= l < |a| ==> a[k] <= a[l])
  }

  /** One inner pass carries the largest of `a[..m+1]` to position `m` and leaves the rest alone. */
  lemma {:induction false} PassRunBubblesMax(a: seq<int>, j: nat, m: nat)
    requires j <= m < |a|
    requires forall k :: 0 <= k < j ==> a[k] <= a[j]
    ensures forall k :: m < k < |a| ==> PassRun(a, j, m).values[k] == a[k]
    ensures forall k :: 0 <= k <= m ==> PassRun(a, j, m).values[k] <= PassRun(a, j, m).values[m]
    ensures Boundary(a, m) ==> Boundary(PassRun(a, j, m).values, m)
    decreases m - j
  {
    if j < m {
      if a[j] > a[j + 1] {
        var b := Swap(a, j);
        assert forall k :: 0 <= k < j + 1 ==> b[k] <= b[j + 1];
        if Boundary(a, m) {
          forall k, l | 0 <= k <= m < l < |b| ensures b[k] <= b[l] {
            assert b[l] == a[l];
            if k == j { assert a[j + 1] <= a[l]; }
            else if k == j + 1 { assert a[j] <= a[l]; }
          }
        }
        PassRunBubblesMax(b, j + 1, m);
      } else {
        PassRunBubblesMax(a, j + 1, m);
      }
    }
  }

  lemma {:induction false} PassesRunSorts(a: seq<int>, i: nat)
    requires i <= |a| && Settled(a, |a| - i)
    ensures Sorted(PassesRun(a, i).values)
    decreases |a| - i
  {
    if i + 1 < |a| {
      var m := |a| - i - 1;
      PassRunBubblesMax(a, 0, m);
      var r := PassRun(a, 0, m).values;
      assert Boundary(a, m);
      assert Settled(r, m);
      PassesRunSorts(r, i + 1);
    }
  }

  /** The last snapshot shows the input sorted ascending. */
  lemma BubbleSortSorts(arr: seq<int>)
    ensures Sorted(Last(BubbleSortSteps(arr)).values)
    ensures multiset(Last(BubbleSortSteps(arr)).values) == multiset(arr)
  {
    PassesRunSorts(arr, 0);
    PassesRunLast(SortStep(arr, [], []), 0);
    PassesRunPermutes(arr, 0);
  }

  // ------------------------------------------------------------ permutation

  lemma SwapPermutes(a: seq<int>, j: nat)
    requires j + 1 < |a|
    ensures multiset(Swap(a, j)) == multiset(a)
  {
    var b := a[j := a[j + 1]];
    assert multiset(b) == multiset(a) - multiset{a[j]} + multiset{a[j + 1]};
    assert multiset(b[j + 1 := a[j]]) == multiset(b) - multiset{b[j + 1]} + multiset{a[j]};
  }

  /** Every snapshot in `steps` shows a rearrangement of `a`. */
  predicate AllPermute(steps: seq<SortStep>, a: seq<int>)
  {
    forall k :: 0 <= k < |steps| ==> multiset(steps[k].values) == multiset(a)
  }

  lemma {:induction false} PassRunPermutes(a: seq<int>, j: nat, m: nat)
    requires m < |a|
    ensures AllPermute(PassRun(a, j, m).steps, a)
    ensures multiset(PassRun(a, j, m).values) == multiset(a)
    decreases m - j
  {
    if j < m {
      if a[j] > a[j + 1] {
        PassRunPermutes(Swap(a, j), j + 1, m);
        SwapRecordPermutes(a, j, m);
      } else {
        PassRunPermutes(a, j + 1, m);
        CompareRecordPermutes(a, j, m);
      }
    }
  }

  /** The swap branch of a pass keeps every snapshot a rearrangement of `a`. */
  lemma SwapRecordPermutes(a: seq<int>, j: nat, m: nat)
    requires j < m < |a| && a[j] > a[j + 1]
    requires AllPermute(PassRun(Swap(a, j), j + 1, m).steps, Swap(a, j))
    requires multiset(PassRun(Swap(a, j), j + 1, m).values) == multiset(Swap(a, j))
    ensures AllPermute(PassRun(a, j, m).steps, a)
    ensures multiset(PassRun(a, j, m).values) == multiset(a)
  {
    var b := Swap(a, j);
    SwapPermutes(a, j);
    var recorded := [SortStep(a, [j, j + 1], []), SortStep(a, [j, j + 1], [j, j + 1]), SortStep(b, [], [])];
    assert AllPermute(recorded, a);
    var rest := PassRun(b, j + 1, m);
    assert PassRun(a, j, m) == Run(recorded + rest.steps, rest.values);
    AllPermuteAppend(recorded, rest.steps, a);
  }

  /** The branch of a pass that only compares keeps every snapshot a rearrangement of `a`. */
  lemma CompareRecordPermutes(a: seq<int>, j: nat, m: nat)
    requires j < m < |a| && a[j] <= a[j + 1]
    requires AllPermute(PassRun(a, j + 1, m).steps, a)
    requires multiset(PassRun(a, j + 1, m).values) == multiset(a)
    ensures AllPermute(PassRun(a, j, m).steps, a)
    ensures multiset(PassRun(a, j, m).values) == multiset(a)
  {
    var rest := PassRun(a, j + 1, m);
    assert PassRun(a, j, m) == Run([SortStep(a, [j, j + 1], [])] + rest.steps, rest.values);
    AllPermuteAppend([SortStep(a, [j, j + 1], [])], rest.steps, a);
  }

  lemma AllPermuteAppend(x: seq<SortStep>, y: seq<SortStep>, a: seq<int>)
    requires AllPermute(x, a) && AllPermute(y, a)
    ensures AllPermute(x + y, a)
  {
    forall k | 0 <= k < |x + y| ensures multiset((x + y)[k].values) == multiset(a) {
      if k >= |x| {
        assert (x + y)[k] == y[k - |x|];
      }
    }
  }

  lemma {:induction false} PassesRunPermutes(a: seq<int>, i: nat)
    ensures AllPermute(PassesRun(a, i).steps, a)
    ensures multiset(PassesRun(a, i).values) == multiset(a)
    decreases |a| - i
  {
    if i + 1 < |a| {
      var pass := PassRun(a, 0, |a| - i - 1);
      PassRunPermutes(a, 0, |a| - i - 1);
      PassesRunPermutes(pass.values, i + 1);
      AllPermuteAppend(pass.steps, PassesRun(pass.values, i + 1).steps, a);
    }
  }

  /** Every snapshot's array is a permutation of the input. */
  lemma BubbleStepsPermute(arr: seq<int>)
    ensures forall k :: 0 <= k < |BubbleSortSteps(arr)| ==>
      multiset(BubbleSortSteps(arr)[k].values) == multiset(arr) && |BubbleSortSteps(arr)[k].values| == |arr|
  {
    PassesRunPermutes(arr, 0);
    var steps := BubbleSortSteps(arr);
    forall k | 0 <= k < |steps|
      ensures |steps[k].values| == |arr|
    {
      assert multiset(steps[k].values) == multiset(arr);
      assert |multiset(steps[k].values)| == |multiset(arr)|;
    }
  }

  // ------------------------------------------------------------ swapping steps

  /**
   * The snapshot at `k` is a swapping step for an adjacent, out-of-order pair `[j, j + 1]`,
   * and the next snapshot is settled and shows the same array with that pair exchanged.
   */
  predicate SwapSettlesAt(steps: seq<SortStep>, k: nat)
    requires k < |steps|
  {
    var s, w := steps[k], steps[k].swapping;
    && |w| == 2 && 0 <= w[0] && w[1] == w[0] + 1 && w[1] < |s.values|
    && s.comparing == w
    && s.values[w[0]] > s.values[w[1]]
    && k + 1 < |steps|
    && steps[k + 1] == SortStep(Swap(s.values, w[0]), [], [])
  }

  predicate SwapsSettle(steps: seq<SortStep>)
  {
    forall k :: 0 <= k < |steps| && steps[k].swapping != [] ==> SwapSettlesAt(steps, k)
  }

  lemma SwapsSettleAppend(x: seq<SortStep>, y: seq<SortStep>)
    requires SwapsSettle(x) && SwapsSettle(y)
    requires x == [] || Last(x).swapping == []
    ensures SwapsSettle(x + y)
  {
    var xy := x + y;
    forall k | 0 <= k < |xy| && xy[k].swapping != [] ensures SwapSettlesAt(xy, k) {
      if k < |x| {
        assert SwapSettlesAt(x, k);
      } else {
        assert SwapSettlesAt(y, k - |x|);
      }
    }
  }

  lemma {:induction false} PassRunSwapsSettle(a: seq<int>, j: nat, m: nat)
    requires m < |a|
    ensures SwapsSettle(PassRun(a, j, m).steps)
    ensures PassRun(a, j, m).steps == [] || Last(PassRun(a, j, m).steps).swapping == []
    decreases m - j
  {
    if j < m {
      PassRunUnfold(a, j, m);
      if a[j] > a[j + 1] {
        var recorded := [SortStep(a, [j, j + 1], []), SortStep(a, [j, j + 1], [j, j + 1]), SortStep(Swap(a, j), [], [])];
        assert SwapSettlesAt(recorded, 1);
        PassRunSwapsSettle(Swap(a, j), j + 1, m);
        SwapsSettleAppend(recorded, PassRun(Swap(a, j), j + 1, m).steps);
      } else {
        PassRunSwapsSettle(a, j + 1, m);
        SwapsSettleAppend([SortStep(a, [j, j + 1], [])], PassRun(a, j + 1, m).steps);
      }
    }
  }

  lemma {:induction false} PassesRunSwapsSettle(a: seq<int>, i: nat)
    ensures SwapsSettle(PassesRun(a, i).steps)
    ensures PassesRun(a, i).steps == [] || Last(PassesRun(a, i).steps).swapping == []
    decreases |a| - i
  {
    if i + 1 < |a| {
      var pass := PassRun(a, 0, |a| - i - 1);
      PassRunSwapsSettle(a, 0, |a| - i - 1);
      PassesRunSwapsSettle(pass.values, i + 1);
      SwapsSettleAppend(pass.steps, PassesRun(pass.values, i + 1).steps);
    }
  }

  /**
   * A swapping step `[j, j + 1]` appears only where the snapshot has `a[j] > a[j + 1]`, and is
   * followed at once by a settled step showing exactly that pair exchanged.
   */
  lemma BubbleSwapsSettle(arr: seq<int>)
    ensures SwapsSettle(BubbleSortSteps(arr))
  {
    PassesRunSwapsSettle(arr, 0);
    SwapsSettleAppend([SortStep(arr, [], [])], PassesRun(arr, 0).steps);
  }

  // ------------------------------------------------------------ step counts

  /** The index pairs of the plain comparing steps (comparing set, nothing swapping), in order. */
  function ComparedPairs(steps: seq<SortStep>): seq<seq<int>>
  {
    if steps == [] then []
    else (if steps[0].comparing != [] && steps[0].swapping == [] then [steps[0].comparing] else [])
         + ComparedPairs(steps[1..])
  }

  /** How many swapping steps there are. */
  function SwapCount(steps: seq<SortStep>): nat
  {
    if steps == [] then 0
    else (if steps[0].swapping != [] then 1 else 0) + SwapCount(steps[1..])
  }

  lemma {:induction false} CountsAppend(x: seq<SortStep>, y: seq<SortStep>)
    ensures ComparedPairs(x + y) == ComparedPairs(x) + ComparedPairs(y)
    ensures SwapCount(x + y) == SwapCount(x) + SwapCount(y)
  {
    if x == [] {
      assert x + y == y;
    } else {
      var xy := x + y;
      assert xy[0] == x[0] && xy[1..] == x[1..] + y;
      CountsAppend(x[1..], y);
      var head := if x[0].comparing != [] && x[0].swapping == [] then [x[0].comparing] else [];
      assert ComparedPairs(xy) == head + ComparedPairs(x[1..] + y);
      AppendAssoc(head, ComparedPairs(x[1..]), ComparedPairs(y));
    }
  }

  /** The pairs `[j, j + 1]` the inner loop visits, `j` from `j` while `j < m`, whatever the data. */
  function InnerPairs(j: nat, m: nat): seq<seq<int>>
    decreases m - j
  {
    if j >= m then [] else [[j, j + 1]] + InnerPairs(j + 1, m)
  }

  /** The pairs the nested loops visit on an array of length `n`, from outer round `i` on. */
  function LoopPairs(i: nat, n: nat): seq<seq<int>>
    decreases n - i
  {
    if i + 1 >= n then [] else InnerPairs(0, n - i - 1) + LoopPairs(i + 1, n)
  }

  lemma {:induction false} InnerPairsLength(j: nat, m: nat)
    requires j <= m
    ensures |InnerPairs(j, m)| == m - j
    decreases m - j
  {
    if j < m {
      InnerPairsLength(j + 1, m);
    }
  }

  lemma {:induction false} LoopPairsLength(i: nat, n: nat)
    requires i <= n
    ensures 2 * |LoopPairs(i, n)| == (n - i) * (n - i - 1)
    decreases n - i
  {
    if i + 1 < n {
      InnerPairsLength(0, n - i - 1);
      LoopPairsLength(i + 1, n);
      var k := n - i;
      assert (k - 1) * (k - 2) + 2 * (k - 1) == k * (k - 1);
    }
  }

  lemma {:induction false} PassRunCounts(a: seq<int>, j: nat, m: nat)
    requires j <= m < |a|
    ensures ComparedPairs(PassRun(a, j, m).steps) == InnerPairs(j, m)
    ensures |PassRun(a, j, m).steps| == m - j + 2 * SwapCount(PassRun(a, j, m).steps)
    decreases m - j
  {
    if j < m {
      PassRunUnfold(a, j, m);
      if a[j] > a[j + 1] {
        var b := Swap(a, j);
        var settled := [SortStep(b, [], [])];
        var swapping := [SortStep(a, [j, j + 1], [j, j + 1])] + settled;
        var recorded := [SortStep(a, [j, j + 1], [])] + swapping;
        assert ComparedPairs(settled) == [] && SwapCount(settled) == 0;
        assert ComparedPairs(swapping) == [] && SwapCount(swapping) == 1;
        assert ComparedPairs(recorded) == [[j, j + 1]] && SwapCount(recorded) == 1;
        assert recorded == [SortStep(a, [j, j + 1], []), SortStep(a, [j, j + 1], [j, j + 1]), SortStep(b, [], [])];
        PassRunCounts(b, j + 1, m);
        CountsAppend(recorded, PassRun(b, j + 1, m).steps);
      } else {
        var recorded := [SortStep(a, [j, j + 1], [])];
        assert ComparedPairs(recorded) == [[j, j + 1]] && SwapCount(recorded) == 0;
        PassRunCounts(a, j + 1, m);
        CountsAppend(recorded, PassRun(a, j + 1, m).steps);
      }
    }
  }

  lemma {:induction false} PassesRunCounts(a: seq<int>, i: nat)
    ensures ComparedPairs(PassesRun(a, i).steps) == LoopPairs(i, |a|)
    ensures |PassesRun(a, i).steps| == |LoopPairs(i, |a|)| + 2 * SwapCount(PassesRun(a, i).steps)
    decreases |a| - i
  {
    if i + 1 < |a| {
      var pass := PassRun(a, 0, |a| - i - 1);
      PassRunCounts(a, 0, |a| - i - 1);
      InnerPairsLength(0, |a| - i - 1);
      PassesRunCounts(pass.values, i + 1);
      CountsAppend(pass.steps, PassesRun(pass.values, i + 1).steps);
    }
  }

  /**
   * After the initial snapshot, the plain comparing steps visit the index pairs in nested-loop
   * order, `n(n-1)/2` of them, and every swap adds two more steps; an array of at most one
   * element gives the initial snapshot alone.
   */
  lemma BubbleStepCount(arr: seq<int>)
    ensures ComparedPairs(BubbleSortSteps(arr)) == LoopPairs(0, |arr|)
    ensures |LoopPairs(0, |arr|)| == |arr| * (|arr| - 1) / 2
    ensures |BubbleSortSteps(arr)| == 1 + |arr| * (|arr| - 1) / 2 + 2 * SwapCount(BubbleSortSteps(arr))
    ensures |arr| <= 1 ==> |BubbleSortSteps(arr)| == 1
  {
    var first := SortStep(arr, [], []);
    PassesRunCounts(arr, 0);
    LoopPairsLength(0, |arr|);
    CountsAppend([first], PassesRun(arr, 0).steps);
    assert ComparedPairs([first]) == [] && SwapCount([first]) == 0;
  }
}
