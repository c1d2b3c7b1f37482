/** Small shared vocabulary: the nullable values of the source and two sequence helpers. */
module Common {

  /** A value that may be absent (`null` in the source). */
  datatype Option<+T> = None | Some(value: T)

  /** The last element of a non-empty sequence. */
  function Last<T>(s: seq<T>): T
    requires |s| > 0
  {
    s[|s| - 1]
  }

  /** No element occurs twice. */
  predicate NoDup<T(==)>(s: seq<T>)
  {
    forall k, l :: 0 <= k < l < |s| ==> s[k] != s[l]
  }

  /** Ascending order, duplicates allowed. */
  predicate Sorted(s: seq<int>)
  {
    forall k, l :: 0 <= k < l < |s| ==> s[k] <= s[l]
  }

  lemma AppendAssoc<T>(a: seq<T>, b: seq<T>, c: seq<T>)
    ensures a + b + c == a + (b + c)
  {
  }

  lemma LastAfterPrefix<T>(p: seq<T>, s: T, r: seq<T>)
    ensures Last(p + [s] + r) == Last([s] + r)
  {
  }

  lemma LastJoin<T>(x: seq<T>, y: seq<T>)
    requires |x| > 0
    ensures Last(x + y) == Last([Last(x)] + y)
  {
  }
}
