/** Ordering query results by an integer key, as the collections' `sort`
    does. The database promises nothing about documents with equal keys,
    and neither does this insertion sort. */
module Sorting {

  predicate SortedBy<T>(xs: seq<T>, key: T -> int) {
    forall i, j :: 0 <= i < j < |xs| ==> key(xs[i]) <= key(xs[j])
  }

  /** Inserts `x` before the first element with a key not below its own. */
  function Insert<T>(x: T, xs: seq<T>, key: T -> int): (r: seq<T>)
    requires SortedBy(xs, key)
    ensures |r| == |xs| + 1
    ensures SortedBy(r, key)
    ensures multiset(r) == multiset(xs) + multiset{x}
  {
    if |xs| == 0 then [x]
    else if key(x) <= key(xs[0]) then [x] + xs
    else
      var rest := Insert(x, xs[1..], key);
      assert xs == [xs[0]] + xs[1..];
      BoundOfPermutation(rest, xs[1..], x, key, key(xs[0]));
      [xs[0]] + rest
  }

  /** Every key is at least `lo`. */
  predicate KeysAtLeast<T>(xs: seq<T>, key: T -> int, lo: int) {
    forall k :: 0 <= k < |xs| ==> lo <= key(xs[k])
  }

  /** A lower bound on the keys carries over to a rearrangement with one
      more element whose key also meets it. */
  lemma BoundOfPermutation<T>(r: seq<T>, xs: seq<T>, x: T, key: T -> int, lo: int)
    requires multiset(r) == multiset(xs) + multiset{x}
    requires KeysAtLeast(xs, key, lo) && lo <= key(x)
    ensures KeysAtLeast(r, key, lo)
  {
    forall k | 0 <= k < |r|
      ensures lo <= key(r[k])
    {
      assert r[k] in multiset(r);
      if r[k] != x {
        assert r[k] in multiset(xs);
        var m :| 0 <= m < |xs| && xs[m] == r[k];
      }
    }
  }

  /** Sorts by ascending key. */
  function SortBy<T>(xs: seq<T>, key: T -> int): (r: seq<T>)
    ensures |r| == |xs|
    ensures SortedBy(r, key)
    ensures multiset(r) == multiset(xs)
  {
    if |xs| == 0 then []
    else
      assert xs == [xs[0]] + xs[1..];
      Insert(xs[0], SortBy(xs[1..], key), key)
  }
}
