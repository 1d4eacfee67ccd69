/**
 * Python's `sorted` / `list.sort` for a strict total order `less`:
 * a stable insertion sort, its permutation property and its ordering.
 */
module Sorting {
  ghost predicate StrictTotalOrder<T(!new)>(less: (T, T) -> bool) {
    (forall a :: !less(a, a))
    && (forall a, b, c :: less(a, b) && less(b, c) ==> less(a, c))
    && (forall a, b :: a != b ==> less(a, b) || less(b, a))
  }

  /** Non-decreasing: no later element is smaller than an earlier one. */
  predicate Sorted<T>(s: seq<T>, less: (T, T) -> bool) {
    forall i, j :: 0 <= i < j < |s| ==> !less(s[j], s[i])
  }

  /** Put `x` before the first element of `s` that is not smaller than it. */
  function Insert<T>(x: T, s: seq<T>, less: (T, T) -> bool): (r: seq<T>)
    ensures multiset(r) == multiset(s) + multiset{x}
    decreases |s|
  {
    if s == [] then [x]
    else if less(s[0], x) then
      assert s == [s[0]] + s[1..];
      [s[0]] + Insert(x, s[1..], less)
    else [x] + s
  }

  function InsertionSort<T>(s: seq<T>, less: (T, T) -> bool): (r: seq<T>)
    ensures multiset(r) == multiset(s)
    decreases |s|
  {
    if s == [] then []
    else
      assert s == [s[0]] + s[1..];
      Insert(s[0], InsertionSort(s[1..], less), less)
  }

  lemma {:induction false} InsertSorted<T(!new)>(x: T, s: seq<T>, less: (T, T) -> bool)
    requires StrictTotalOrder(less)
    requires Sorted(s, less)
    ensures Sorted(Insert(x, s, less), less)
    decreases |s|
  {
    if s != [] && less(s[0], x) {
      InsertSorted(x, s[1..], less);
      var r := Insert(x, s, less);
      var t := Insert(x, s[1..], less);
      assert r == [s[0]] + t;
      forall j | 0 < j < |r| ensures !less(r[j], r[0]) {
        assert r[j] in multiset(t);
        assert r[j] in multiset(s[1..]) + multiset{x};
        if r[j] != x {
          var m :| 0 <= m < |s[1..]| && s[1..][m] == r[j];
          assert s[m + 1] == r[j];
        }
      }
    } else if s != [] {
      var r := Insert(x, s, less);
      assert r == [x] + s;
      forall j | 0 < j < |r| ensures !less(r[j], r[0]) {
        assert r[j] == s[j - 1];
      }
    }
  }

  /** A sorted permutation; with a strict total order this is THE sorted permutation. */
  lemma {:induction false} InsertionSortSorted<T(!new)>(s: seq<T>, less: (T, T) -> bool)
    requires StrictTotalOrder(less)
    ensures Sorted(InsertionSort(s, less), less)
    decreases |s|
  {
    if s != [] {
      InsertionSortSorted(s[1..], less);
      InsertSorted(s[0], InsertionSort(s[1..], less), less);
    }
  }

  /** `[x for x in s if keep(x)]`. */
  function Filter<T>(s: seq<T>, keep: T -> bool): (r: seq<T>)
    ensures |r| <= |s|
    decreases |s|
  {
    if s == [] then []
    else
      var pre := Filter(s[..|s| - 1], keep);
      if keep(s[|s| - 1]) then pre + [s[|s| - 1]] else pre
  }

  /** The comprehension keeps exactly the elements that pass, in their order. */
  lemma {:induction false} FilterExact<T>(s: seq<T>, keep: T -> bool)
    ensures forall x :: x in Filter(s, keep) <==> x in s && keep(x)
    decreases |s|
  {
    if s != [] {
      var pre := s[..|s| - 1];
      FilterExact(pre, keep);
      assert s == pre + [s[|s| - 1]];
    }
  }
}
