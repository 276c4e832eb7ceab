/** Sorting with a comparator, as `Array.prototype.sort` does with the
    comparators the application passes: the result is ordered by the comparator
    and is a permutation of the input. */
module Sorting {

  /** `le(a, b)`: `a` may come before `b`. A comparator that returns a number
      corresponds to a total preorder. */
  ghost predicate TotalPreorder<T(!new)>(le: (T, T) -> bool) {
    && (forall a, b :: le(a, b) || le(b, a))
    && (forall a, b, c :: le(a, b) && le(b, c) ==> le(a, c))
  }

  predicate SortedBy<T>(s: seq<T>, le: (T, T) -> bool) {
    forall i, j | 0 <= i < j < |s| :: le(s[i], s[j])
  }

  /** Places `x` in front of the first element it may precede. */
  function Insert<T(!new)>(x: T, s: seq<T>, le: (T, T) -> bool): (r: seq<T>)
    requires TotalPreorder(le)
    requires SortedBy(s, le)
    ensures SortedBy(r, le)
    ensures multiset(r) == multiset(s) + multiset{x}
    ensures |r| == |s| + 1
  {
    if |s| == 0 || le(x, s[0]) then
      [x] + s
    else
      var t := Insert(x, s[1..], le);
      assert s == [s[0]] + s[1..];
      assert forall k | 0 <= k < |t| :: le(s[0], t[k]) by {
        forall k | 0 <= k < |t|
          ensures le(s[0], t[k])
        {
          assert t[k] in multiset(s[1..]) + multiset{x};
        }
      }
      [s[0]] + t
  }

  /** Insertion sort. */
  function SortBy<T(!new)>(s: seq<T>, le: (T, T) -> bool): (r: seq<T>)
    requires TotalPreorder(le)
    ensures SortedBy(r, le)
    ensures multiset(r) == multiset(s)
    ensures |r| == |s|
  {
    if |s| == 0 then []
    else
      assert s == [s[0]] + s[1..];
      Insert(s[0], SortBy(s[1..], le), le)
  }

  /** A sorted sequence without repetitions is strictly ordered. */
  lemma DistinctSortedIsStrict<T(!new)>(s: seq<T>, le: (T, T) -> bool, i: int, j: int)
    requires SortedBy(s, le)
    requires forall a, b :: le(a, b) && le(b, a) ==> a == b
    requires forall k, l | 0 <= k < l < |s| :: s[k] != s[l]
    requires 0 <= i < j < |s|
    ensures le(s[i], s[j]) && !le(s[j], s[i])
  {
  }
}
