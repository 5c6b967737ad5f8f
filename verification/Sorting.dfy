/** The stable sort the database relies on: value lists are kept by descending
    confidence and result rows are returned by descending ranking. */
module Sorting {

  /** No element is followed by one with a larger key. */
  ghost predicate Descending<T(!new)>(s: seq<T>, key: T -> int) {
    forall i, j :: 0 <= i < j < |s| ==> key(s[i]) >= key(s[j])
  }

  /** Puts x behind every element whose key is at least its own. */
  function InsertStable<T>(s: seq<T>, key: T -> int, x: T): seq<T> {
    if s == [] || key(s[|s| - 1]) >= key(x) then s + [x]
    else InsertStable(s[..|s| - 1], key, x) + [s[|s| - 1]]
  }

  /** Insertion sort from the left: the functional meaning of a stable sort by
      descending key. */
  function StableSort<T>(s: seq<T>, key: T -> int): seq<T> {
    if s == [] then [] else InsertStable(StableSort(s[..|s| - 1], key), key, s[|s| - 1])
  }

  /** The elements with a given key, in order. */
  ghost function WithKey<T>(s: seq<T>, key: T -> int, k: int): seq<T> {
    if s == [] then []
    else WithKey(s[..|s| - 1], key, k) + if key(s[|s| - 1]) == k then [s[|s| - 1]] else []
  }

  lemma {:induction false} InsertPermutes<T>(s: seq<T>, key: T -> int, x: T)
    ensures multiset(InsertStable(s, key, x)) == multiset(s) + multiset{x}
    ensures |InsertStable(s, key, x)| == |s| + 1
  {
    if s != [] && key(s[|s| - 1]) < key(x) {
      assert s == s[..|s| - 1] + [s[|s| - 1]];
      InsertPermutes(s[..|s| - 1], key, x);
    }
  }

  ghost predicate AtLeast<T>(s: seq<T>, key: T -> int, low: int) {
    forall i :: 0 <= i < |s| ==> key(s[i]) >= low
  }

  lemma {:induction false} InsertStaysAbove<T>(s: seq<T>, key: T -> int, x: T, low: int)
    requires AtLeast(s, key, low) && key(x) >= low
    ensures AtLeast(InsertStable(s, key, x), key, low)
  {
    if s != [] && key(s[|s| - 1]) < key(x) { InsertStaysAbove(s[..|s| - 1], key, x, low); }
  }

  lemma {:induction false} InsertSorts<T(!new)>(s: seq<T>, key: T -> int, x: T)
    requires Descending(s, key)
    ensures Descending(InsertStable(s, key, x), key)
  {
    if s != [] && key(s[|s| - 1]) < key(x) {
      InsertSorts(s[..|s| - 1], key, x);
      InsertStaysAbove(s[..|s| - 1], key, x, key(s[|s| - 1]));
    }
  }

  lemma {:induction false} InsertIsStable<T(!new)>(s: seq<T>, key: T -> int, x: T, k: int)
    requires Descending(s, key)
    ensures WithKey(InsertStable(s, key, x), key, k) == WithKey(s + [x], key, k)
  {
    assert (s + [x])[..|s|] == s;
    if s == [] || key(s[|s| - 1]) >= key(x) {
    } else {
      var init, last := s[..|s| - 1], s[|s| - 1];
      InsertIsStable(init, key, x, k);
      assert (init + [x])[..|init|] == init;
      var r := InsertStable(init, key, x);
      assert (r + [last])[..|r|] == r;
    }
  }

  /** The sort returns the same elements, in descending order, and keeps the
      order of elements with equal keys. */
  lemma {:induction false} StableSortIsStableSort<T(!new)>(s: seq<T>, key: T -> int)
    ensures Descending(StableSort(s, key), key)
    ensures multiset(StableSort(s, key)) == multiset(s)
    ensures |StableSort(s, key)| == |s|
    ensures forall k :: WithKey(StableSort(s, key), key, k) == WithKey(s, key, k)
  {
    if s != [] {
      var init, last := s[..|s| - 1], s[|s| - 1];
      assert s == init + [last];
      StableSortIsStableSort(init, key);
      var r := StableSort(init, key);
      InsertSorts(r, key, last);
      InsertPermutes(r, key, last);
      forall k ensures WithKey(StableSort(s, key), key, k) == WithKey(s, key, k) {
        InsertIsStable(r, key, last, k);
        assert (r + [last])[..|r|] == r;
      }
    }
  }

  /** A sorted list is left alone. */
  lemma {:induction false} StableSortFixesSorted<T(!new)>(s: seq<T>, key: T -> int)
    requires Descending(s, key)
    ensures StableSort(s, key) == s
  {
    if s != [] {
      var init, last := s[..|s| - 1], s[|s| - 1];
      assert s == init + [last];
      StableSortFixesSorted(init, key);
    }
  }

  /** Sorting after appending one element to a sorted list is one stable insertion. */
  lemma {:induction false} SortAppended<T(!new)>(s: seq<T>, key: T -> int, x: T)
    requires Descending(s, key)
    ensures StableSort(s + [x], key) == InsertStable(s, key, x)
  {
    assert (s + [x])[..|s|] == s;
    StableSortFixesSorted(s, key);
  }
}
