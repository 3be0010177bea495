/** Sorting a list by a comparison, as `ORDER BY` and `list.sort` do. */
module Sorting {

  /** `le` orders every pair, transitively (ties are allowed). */
  ghost predicate TotalPreorder<T(!new)>(le: (T, T) -> bool)
  {
    && (forall a, b :: le(a, b) || le(b, a))
    && (forall a, b, c :: le(a, b) && le(b, c) ==> le(a, c))
  }

  ghost predicate SortedBy<T>(s: seq<T>, le: (T, T) -> bool)
  {
    forall i, j | 0 <= i < j < |s| :: le(s[i], s[j])
  }

  /** Inserts `x` after the last element that `le` puts at or before it. */
  method Insert<T(!new)>(r: seq<T>, x: T, le: (T, T) -> bool) returns (q: seq<T>)
    requires TotalPreorder(le)
    requires SortedBy(r, le)
    ensures SortedBy(q, le)
    ensures multiset(q) == multiset(r) + multiset{x}
  {
    var j := 0;
    while j < |r| && le(r[j], x)
      invariant 0 <= j <= |r|
      invariant forall k | 0 <= k < j :: le(r[k], x)
    {
      j := j + 1;
    }
    assert forall k | j <= k < |r| :: le(x, r[k]) by {
      if j < |r| {
        assert !le(r[j], x);
        assert le(x, r[j]);
      }
    }
    q := r[..j] + [x] + r[j..];
    assert r[..j] + r[j..] == r;
    assert forall k | 0 <= k < |q| :: q[k] == if k < j then r[k] else if k == j then x else r[k - 1];
  }

  /** A stable insertion sort: the result is ordered by `le` and is a
      permutation of the input. */
  method InsertionSort<T(!new)>(s: seq<T>, le: (T, T) -> bool) returns (r: seq<T>)
    requires TotalPreorder(le)
    ensures SortedBy(r, le)
    ensures multiset(r) == multiset(s)
  {
    r := [];
    var i := 0;
    while i < |s|
      invariant 0 <= i <= |s|
      invariant SortedBy(r, le)
      invariant multiset(r) == multiset(s[..i])
    {
      r := Insert(r, s[i], le);
      assert s[..i + 1] == s[..i] + [s[i]];
      i := i + 1;
    }
    assert s[..i] == s;
  }
}
