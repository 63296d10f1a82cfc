/**
 * A stable sort by a real-valued key, as java.util's List.sort and
 * Stream.sorted with Comparator.comparingDouble: ascending keys, and elements
 * with equal keys keep their order of encounter.
 */
module Sorting {

  predicate SortedBy<T>(s: seq<T>, key: T -> real) {
    forall i, j :: 0 <= i < j < |s| ==> key(s[i]) <= key(s[j])
  }

  /** Places x before the first element whose key is not smaller than x's. */
  function Insert<T>(x: T, s: seq<T>, key: T -> real): (r: seq<T>)
    ensures |r| == |s| + 1
    ensures multiset(r) == multiset(s) + multiset{x}
    decreases s
  {
    if s == [] || key(x) <= key(s[0]) then [x] + s
    else assert s == [s[0]] + s[1..]; [s[0]] + Insert(x, s[1..], key)
  }

  function SortByKey<T>(s: seq<T>, key: T -> real): (r: seq<T>)
    ensures |r| == |s|
    ensures multiset(r) == multiset(s)
    decreases s
  {
    if s == [] then []
    else assert s == [s[0]] + s[1..]; Insert(s[0], SortByKey(s[1..], key), key)
  }

  /** Inserting an element no smaller than a bound keeps every key above the bound. */
  lemma {:induction false} InsertKeepsLowerBound<T>(x: T, s: seq<T>, key: T -> real, lo: real)
    requires key(x) >= lo
    requires forall i :: 0 <= i < |s| ==> key(s[i]) >= lo
    ensures forall i :: 0 <= i < |Insert(x, s, key)| ==> key(Insert(x, s, key)[i]) >= lo
    decreases s
  {
    if s != [] && key(s[0]) < key(x) {
      InsertKeepsLowerBound(x, s[1..], key, lo);
    }
  }

  lemma {:induction false} InsertKeepsSorted<T>(x: T, s: seq<T>, key: T -> real)
    requires SortedBy(s, key)
    ensures SortedBy(Insert(x, s, key), key)
    decreases s
  {
    if s != [] && key(s[0]) < key(x) {
      var t := Insert(x, s[1..], key);
      InsertKeepsSorted(x, s[1..], key);
      InsertKeepsLowerBound(x, s[1..], key, key(s[0]));
      assert Insert(x, s, key) == [s[0]] + t;
    }
  }

  /** The sorted result has non-decreasing keys. */
  lemma {:induction false} SortByKeyIsSorted<T>(s: seq<T>, key: T -> real)
    ensures SortedBy(SortByKey(s, key), key)
    decreases s
  {
    if s != [] {
      SortByKeyIsSorted(s[1..], key);
      InsertKeepsSorted(s[0], SortByKey(s[1..], key), key);
    }
  }

  /** The elements of s whose key equals k, in their order in s. */
  function WithKey<T>(s: seq<T>, key: T -> real, k: real): (r: seq<T>)
    ensures |r| <= |s|
    decreases s
  {
    if s == [] then []
    else (if key(s[0]) == k then [s[0]] else []) + WithKey(s[1..], key, k)
  }

  lemma {:induction false} InsertWithKey<T>(x: T, s: seq<T>, key: T -> real, k: real)
    requires SortedBy(s, key)
    ensures WithKey(Insert(x, s, key), key, k)
         == (if key(x) == k then [x] else []) + WithKey(s, key, k)
    decreases s
  {
    if s == [] || key(x) <= key(s[0]) {
      assert Insert(x, s, key)[1..] == s;
    } else {
      InsertWithKey(x, s[1..], key, k);
      assert Insert(x, s, key)[1..] == Insert(x, s[1..], key);
      assert key(s[0]) < key(x);
    }
  }

  /**
   * Stability: for every key value, the elements with that key appear in the
   * sorted result in the same order as in the input.
   */
  lemma {:induction false} SortByKeyIsStable<T>(s: seq<T>, key: T -> real, k: real)
    ensures WithKey(SortByKey(s, key), key, k) == WithKey(s, key, k)
    decreases s
  {
    if s != [] {
      SortByKeyIsStable(s[1..], key, k);
      SortByKeyIsSorted(s[1..], key);
      InsertWithKey(s[0], SortByKey(s[1..], key), key, k);
    }
  }

  /** The stable sort of exactly three elements, written out by comparisons. */
  function Sort3By<T>(p: T, q: T, r: T, key: T -> real): (s: seq<T>)
    ensures |s| == 3 && key(s[0]) <= key(s[1]) <= key(s[2])
  {
    if key(p) <= key(q) then
      if key(q) <= key(r) then [p, q, r]
      else if key(p) <= key(r) then [p, r, q]
      else [r, p, q]
    else
      if key(p) <= key(r) then [q, p, r]
      else if key(q) <= key(r) then [q, r, p]
      else [r, q, p]
  }

  lemma SortPair<T>(q: T, r: T, key: T -> real)
    ensures SortByKey([q, r], key) == if key(q) <= key(r) then [q, r] else [r, q]
  {
    assert [q, r][1..] == [r];
    assert [r][1..] == [];
    assert SortByKey([r], key) == [r];
    if key(q) > key(r) {
      assert Insert(q, [r], key) == [r] + Insert(q, [], key);
    }
  }

  lemma InsertIntoPair<T>(p: T, x: T, y: T, key: T -> real)
    ensures Insert(p, [x, y], key)
         == if key(p) <= key(x) then [p, x, y] else if key(p) <= key(y) then [x, p, y] else [x, y, p]
  {
    assert [x, y][1..] == [y];
    assert [y][1..] == [];
    if key(p) > key(x) {
      assert Insert(p, [x, y], key) == [x] + Insert(p, [y], key);
      if key(p) > key(y) {
        assert Insert(p, [y], key) == [y] + Insert(p, [], key);
      }
    }
  }

  /** The written-out sort agrees with the stable insertion sort, so it is stable too. */
  lemma Sort3ByIsSortByKey<T>(p: T, q: T, r: T, key: T -> real)
    ensures Sort3By(p, q, r, key) == SortByKey([p, q, r], key)
  {
    assert SortByKey([p, q, r], key) == Insert(p, SortByKey([q, r], key), key) by {
      assert [p, q, r][1..] == [q, r];
    }
    SortPair(q, r, key);
    if key(q) <= key(r) {
      InsertIntoPair(p, q, r, key);
    } else {
      InsertIntoPair(p, r, q, key);
    }
  }

  /** The written-out sort is a permutation of its three arguments. */
  lemma Sort3ByIsPermutation<T>(p: T, q: T, r: T, key: T -> real)
    ensures multiset(Sort3By(p, q, r, key)) == multiset([p, q, r])
  {
    Sort3ByIsSortByKey(p, q, r, key);
  }
}
