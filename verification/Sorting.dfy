/** `sort.SliceStable` with a caller-supplied order. */
module Sorting {

  function InsertBy<T>(s: seq<T>, x: T, less: (T, T) -> bool): (r: seq<T>)
    ensures |r| == |s| + 1 && multiset(r) == multiset(s) + multiset{x}
  {
    if s != [] && less(x, s[|s| - 1]) then
      var init, last := s[..|s| - 1], s[|s| - 1];
      assert s == init + [last];
      InsertBy(init, x, less) + [last]
    else
      s + [x]
  }

  /** Each element in turn moves left past the elements it must precede. */
  function StableSort<T>(s: seq<T>, less: (T, T) -> bool): (r: seq<T>)
    ensures |r| == |s| && multiset(r) == multiset(s)
  {
    if s == [] then []
    else
      var init, last := s[..|s| - 1], s[|s| - 1];
      assert s == init + [last];
      InsertBy(StableSort(init, less), last, less)
  }

  lemma SameElements<T>(s: seq<T>, r: seq<T>)
    requires multiset(r) == multiset(s)
    ensures |r| == |s| && forall x :: x in r <==> x in s
  {
    assert |multiset(r)| == |multiset(s)|;
    forall x
      ensures x in r <==> x in s
    {
      assert x in r <==> x in multiset(r);
      assert x in s <==> x in multiset(s);
    }
  }

  // ---------------------------------------------------------------- sorting by a numeric key

  ghost predicate SortedBy<T>(s: seq<T>, key: T -> int) {
    forall i, j :: 0 <= i < j < |s| ==> key(s[i]) <= key(s[j])
  }

  /** The order is the order of a key. */
  ghost predicate OrdersBy<T(!new)>(less: (T, T) -> bool, key: T -> int) {
    forall x, y :: less(x, y) <==> key(x) < key(y)
  }

  lemma SortedSnoc<T>(s: seq<T>, x: T, key: T -> int)
    requires SortedBy(s, key) && forall i :: 0 <= i < |s| ==> key(s[i]) <= key(x)
    ensures SortedBy(s + [x], key)
  {
  }

  lemma {:induction false} InsertSorted<T(!new)>(s: seq<T>, x: T, less: (T, T) -> bool, key: T -> int)
    requires OrdersBy(less, key) && SortedBy(s, key)
    ensures SortedBy(InsertBy(s, x, less), key)
  {
    if s != [] && less(x, s[|s| - 1]) {
      var init, last := s[..|s| - 1], s[|s| - 1];
      InsertSorted(init, x, less, key);
      var r := InsertBy(init, x, less);
      forall i | 0 <= i < |r|
        ensures key(r[i]) <= key(last)
      {
        assert r[i] in multiset(init) + multiset{x};
      }
      SortedSnoc(r, last, key);
    } else {
      SortedSnoc(s, x, key);
    }
  }

  lemma {:induction false} SortSorts<T(!new)>(s: seq<T>, less: (T, T) -> bool, key: T -> int)
    requires OrdersBy(less, key)
    ensures SortedBy(StableSort(s, less), key)
  {
    if s != [] {
      SortSorts(s[..|s| - 1], less, key);
      InsertSorted(StableSort(s[..|s| - 1], less), s[|s| - 1], less, key);
    }
  }

  // ---------------------------------------------------------------- sorting by any order

  ghost predicate Ordered<T>(s: seq<T>, less: (T, T) -> bool) {
    forall i, j :: 0 <= i < j < |s| ==> !less(s[j], s[i])
  }

  /** A strict weak order, which is what `sort` asks for. */
  ghost predicate WeakOrder<T(!new)>(less: (T, T) -> bool) {
    (forall x, y :: less(x, y) ==> !less(y, x))
    && forall x, y, z :: !less(x, y) && !less(y, z) ==> !less(x, z)
  }

  lemma {:induction false} InsertOrdered<T(!new)>(s: seq<T>, x: T, less: (T, T) -> bool)
    requires WeakOrder(less) && Ordered(s, less)
    ensures Ordered(InsertBy(s, x, less), less)
  {
    if s != [] && less(x, s[|s| - 1]) {
      var init, last := s[..|s| - 1], s[|s| - 1];
      InsertOrdered(init, x, less);
      var r := InsertBy(init, x, less);
      forall i | 0 <= i < |r|
        ensures !less(last, r[i])
      {
        assert r[i] in multiset(init) + multiset{x};
      }
    } else if s != [] {
      var last := s[|s| - 1];
      forall i | 0 <= i < |s|
        ensures !less(x, s[i])
      {
        assert i == |s| - 1 || !less(last, s[i]);
      }
    }
  }

  lemma {:induction false} SortOrders<T(!new)>(s: seq<T>, less: (T, T) -> bool)
    requires WeakOrder(less)
    ensures Ordered(StableSort(s, less), less)
  {
    if s != [] {
      SortOrders(s[..|s| - 1], less);
      InsertOrdered(StableSort(s[..|s| - 1], less), s[|s| - 1], less);
    }
  }

  // ---------------------------------------------------------------- distinct elements

  ghost predicate Distinct<T>(s: seq<T>) {
    forall i, j :: 0 <= i < j < |s| ==> s[i] != s[j]
  }

  lemma DistinctConcat<T>(s: seq<T>, t: seq<T>)
    requires Distinct(s) && Distinct(t) && forall x :: x in s ==> x !in t
    ensures Distinct(s + t)
  {
    forall i, j | 0 <= i < j < |s + t|
      ensures (s + t)[i] != (s + t)[j]
    {
      if i < |s| <= j {
        assert s[i] in s && t[j - |s|] in t;
      }
    }
  }

  lemma RepeatedCounts<T>(s: seq<T>, i: nat, j: nat)
    requires i < j < |s| && s[i] == s[j]
    ensures multiset(s)[s[i]] >= 2
  {
    assert s == s[..j] + s[j..];
    assert s[i] in s[..j] && s[j] in s[j..];
    assert multiset(s) == multiset(s[..j]) + multiset(s[j..]);
    assert s[i] in multiset(s[..j]) && s[j] in multiset(s[j..]);
  }

  lemma {:induction false} DistinctCounts<T>(s: seq<T>, x: T)
    requires Distinct(s)
    ensures multiset(s)[x] <= 1
  {
    if s != [] {
      var n := |s| - 1;
      assert s == s[..n] + [s[n]];
      DistinctCounts(s[..n], x);
      assert s[n] !in multiset(s[..n]);
    }
  }

  /** A rearrangement of distinct elements has distinct elements. */
  lemma DistinctRearranged<T>(s: seq<T>, r: seq<T>)
    requires Distinct(s) && multiset(r) == multiset(s)
    ensures Distinct(r)
  {
    forall i, j | 0 <= i < j < |r|
      ensures r[i] != r[j]
    {
      DistinctCounts(s, r[i]);
      if r[i] == r[j] {
        RepeatedCounts(r, i, j);
      }
    }
  }
}
