/** A stable sort by an integer key, standing for Kotlin's `sortedBy` (and,
    with the key negated, `sortedByDescending`): both are stable, so elements
    with equal keys keep their original relative order. */
module Sorting {

  predicate Sorted<T>(s: seq<T>, key: T -> int)
  {
    forall i, j :: 0 <= i < j < |s| ==> key(s[i]) <= key(s[j])
  }

  /** The elements of `s` whose key is `k`, in their order in `s`. */
  function WithKey<T>(s: seq<T>, key: T -> int, k: int): seq<T>
  {
    if |s| == 0 then []
    else (if key(s[0]) == k then [s[0]] else []) + WithKey(s[1..], key, k)
  }

  /** Inserts `x` in front of the first element whose key is not smaller. */
  function Insert<T>(x: T, s: seq<T>, key: T -> int): (r: seq<T>)
    ensures multiset(r) == multiset(s) + multiset{x}
    ensures |r| == |s| + 1
    ensures r[0] == x || (|s| > 0 && r[0] == s[0])
  {
    if |s| == 0 then [x]
    else if key(x) <= key(s[0]) then [x] + s
    else
      assert s == [s[0]] + s[1..];
      [s[0]] + Insert(x, s[1..], key)
  }

  /** A sorted sequence stays sorted with an element of no larger key in
      front. */
  lemma SortedCons<T>(a: T, t: seq<T>, key: T -> int)
    requires Sorted(t, key)
    requires |t| > 0 ==> key(a) <= key(t[0])
    ensures Sorted([a] + t, key)
  {
    var r := [a] + t;
    forall i, j | 0 <= i < j < |r|
      ensures key(r[i]) <= key(r[j])
    {
      if i == 0 && j > 1 {
        assert key(t[0]) <= key(t[j - 1]);
      }
    }
  }

  lemma {:induction false} InsertSorted<T>(x: T, s: seq<T>, key: T -> int)
    requires Sorted(s, key)
    ensures Sorted(Insert(x, s, key), key)
    decreases |s|
  {
    if |s| == 0 {
    } else if key(x) <= key(s[0]) {
      SortedCons(x, s, key);
    } else {
      assert Sorted(s[1..], key);
      InsertSorted(x, s[1..], key);
      SortedCons(s[0], Insert(x, s[1..], key), key);
    }
  }

  /** Stable sort of `s` by ascending key. */
  function SortBy<T>(s: seq<T>, key: T -> int): (r: seq<T>)
    ensures Sorted(r, key)
    ensures multiset(r) == multiset(s)
    ensures |r| == |s|
  {
    if |s| == 0 then []
    else
      assert s == [s[0]] + s[1..];
      InsertSorted(s[0], SortBy(s[1..], key), key);
      Insert(s[0], SortBy(s[1..], key), key)
  }

  lemma WithKeyCons<T>(y: T, t: seq<T>, key: T -> int, k: int)
    ensures WithKey([y] + t, key, k) == (if key(y) == k then [y] else []) + WithKey(t, key, k)
  {
    assert ([y] + t)[1..] == t;
  }

  /** Moving `x` past an element of smaller key: `x` and that element never
      both carry the key `k`. */
  lemma WithKeyInsertPast<T>(x: T, s: seq<T>, key: T -> int, k: int)
    requires |s| > 0 && key(x) > key(s[0])
    requires WithKey(Insert(x, s[1..], key), key, k) == (if key(x) == k then [x] else []) + WithKey(s[1..], key, k)
    ensures WithKey(Insert(x, s, key), key, k) == (if key(x) == k then [x] else []) + WithKey(s, key, k)
  {
    var rest := Insert(x, s[1..], key);
    var tail := WithKey(s[1..], key, k);
    assert Insert(x, s, key) == [s[0]] + rest;
    WithKeyCons(s[0], rest, key, k);
    WithKeyCons(s[0], s[1..], key, k);
    assert [s[0]] + s[1..] == s;
    if key(x) == k {
      assert WithKey(s, key, k) == tail;
    } else if key(s[0]) == k {
      assert WithKey(rest, key, k) == tail;
    }
  }

  lemma {:induction false} WithKeyInsert<T>(x: T, s: seq<T>, key: T -> int, k: int)
    ensures WithKey(Insert(x, s, key), key, k)
         == (if key(x) == k then [x] else []) + WithKey(s, key, k)
    decreases |s|
  {
    if |s| == 0 {
      WithKeyCons(x, [], key, k);
    } else if key(x) <= key(s[0]) {
      WithKeyCons(x, s, key, k);
    } else {
      WithKeyInsert(x, s[1..], key, k);
      WithKeyInsertPast(x, s, key, k);
    }
  }

  /** Stability: for every key, the elements carrying it appear in the sorted
      sequence in the same order as in the input. */
  lemma {:induction false} SortByStable<T>(s: seq<T>, key: T -> int, k: int)
    ensures WithKey(SortBy(s, key), key, k) == WithKey(s, key, k)
    decreases |s|
  {
    if |s| > 0 {
      SortByStable(s[1..], key, k);
      WithKeyInsert(s[0], SortBy(s[1..], key), key, k);
    }
  }

  /** A sequence already in key order is left as it is. */
  lemma {:induction false} SortBySortedIsIdentity<T>(s: seq<T>, key: T -> int)
    requires Sorted(s, key)
    ensures SortBy(s, key) == s
    decreases |s|
  {
    if |s| > 0 {
      assert Sorted(s[1..], key);
      SortBySortedIsIdentity(s[1..], key);
    }
  }
}
