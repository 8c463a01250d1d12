/**
 * Ascending sort of rows by an integer key, as `orderBy(..., 'asc')` and
 * Laravel's `Collection::sortBy` deliver it. The sort is stable: rows with
 * equal keys keep their relative order (PHP 8's sort is stable; SQL leaves
 * ties unspecified, and stability is one admissible order).
 */
module Sorting {

  predicate SortedBy<T>(s: seq<T>, key: T -> int) {
    forall i, j :: 0 <= i < j < |s| ==> key(s[i]) <= key(s[j])
  }

  /** The rows whose key is `k`, in order. */
  function WithKey<T>(s: seq<T>, key: T -> int, k: int): (r: seq<T>)
    ensures forall x :: x in r ==> x in s && key(x) == k
  {
    if |s| == 0 then []
    else (if key(s[0]) == k then [s[0]] else []) + WithKey(s[1..], key, k)
  }

  /** Places `x` before the first row whose key is not below `x`'s. */
  function Insert<T>(x: T, s: seq<T>, key: T -> int): seq<T> {
    if |s| == 0 || key(x) <= key(s[0]) then [x] + s
    else [s[0]] + Insert(x, s[1..], key)
  }

  /** A row no greater than every row of a sorted sequence can go in front of it. */
  lemma SortedCons<T>(h: T, t: seq<T>, key: T -> int)
    requires SortedBy(t, key)
    requires forall i :: 0 <= i < |t| ==> key(h) <= key(t[i])
    ensures SortedBy([h] + t, key)
  {
    var r := [h] + t;
    forall i, j | 0 <= i < j < |r|
      ensures key(r[i]) <= key(r[j])
    {
      assert r[j] == t[j - 1];
      if i > 0 {
        assert r[i] == t[i - 1];
      }
    }
  }

  lemma SortedTail<T>(s: seq<T>, key: T -> int)
    requires |s| > 0 && SortedBy(s, key)
    ensures SortedBy(s[1..], key)
    ensures forall i :: 0 <= i < |s[1..]| ==> key(s[0]) <= key(s[1..][i])
  {
    forall i, j | 0 <= i < j < |s[1..]|
      ensures key(s[1..][i]) <= key(s[1..][j])
    {
      assert s[1..][i] == s[i + 1] && s[1..][j] == s[j + 1];
    }
    forall i | 0 <= i < |s[1..]| ensures key(s[0]) <= key(s[1..][i]) {
      assert s[1..][i] == s[i + 1];
    }
  }

  /** Inserting a row above a bound into rows above the bound keeps every row above it. */
  lemma {:induction false} InsertBound<T>(x: T, s: seq<T>, key: T -> int, b: int)
    requires b <= key(x)
    requires forall i :: 0 <= i < |s| ==> b <= key(s[i])
    ensures forall i :: 0 <= i < |Insert(x, s, key)| ==> b <= key(Insert(x, s, key)[i])
  {
    if |s| == 0 || key(x) <= key(s[0]) {
      var r := [x] + s;
      assert forall i :: 1 <= i < |r| ==> r[i] == s[i - 1];
    } else {
      forall i | 0 <= i < |s[1..]| ensures b <= key(s[1..][i]) {
        assert s[1..][i] == s[i + 1];
      }
      InsertBound(x, s[1..], key, b);
      var t := Insert(x, s[1..], key);
      assert forall i :: 1 <= i < |t| + 1 ==> ([s[0]] + t)[i] == t[i - 1];
    }
  }

  lemma {:induction false} InsertMultiset<T>(x: T, s: seq<T>, key: T -> int)
    ensures multiset(Insert(x, s, key)) == multiset{x} + multiset(s)
    ensures |Insert(x, s, key)| == |s| + 1
  {
    if |s| > 0 && key(x) > key(s[0]) {
      InsertMultiset(x, s[1..], key);
      assert s == [s[0]] + s[1..];
    }
  }

  lemma {:induction false} InsertSorted<T>(x: T, s: seq<T>, key: T -> int)
    requires SortedBy(s, key)
    ensures SortedBy(Insert(x, s, key), key)
    ensures multiset(Insert(x, s, key)) == multiset{x} + multiset(s)
  {
    InsertMultiset(x, s, key);
    if |s| == 0 || key(x) <= key(s[0]) {
      if |s| > 0 {
        SortedTail(s, key);
      }
      assert forall i :: 0 <= i < |s| ==> key(x) <= key(s[i]) by {
        forall i | 0 <= i < |s| ensures key(x) <= key(s[i]) {
          if i > 0 {
            assert key(s[0]) <= key(s[i]);
          }
        }
      }
      SortedCons(x, s, key);
    } else {
      SortedTail(s, key);
      InsertSorted(x, s[1..], key);
      InsertBound(x, s[1..], key, key(s[0]));
      SortedCons(s[0], Insert(x, s[1..], key), key);
    }
  }

  lemma WithKeyCons<T>(h: T, t: seq<T>, key: T -> int, k: int)
    ensures WithKey([h] + t, key, k) == (if key(h) == k then [h] else []) + WithKey(t, key, k)
  {
    assert ([h] + t)[1..] == t;
  }

  lemma {:induction false} InsertWithKey<T>(x: T, s: seq<T>, key: T -> int, k: int)
    ensures WithKey(Insert(x, s, key), key, k)
            == (if key(x) == k then [x] else []) + WithKey(s, key, k)
  {
    if |s| == 0 || key(x) <= key(s[0]) {
      WithKeyCons(x, s, key, k);
    } else {
      var t := Insert(x, s[1..], key);
      InsertWithKey(x, s[1..], key, k);
      WithKeyCons(s[0], t, key, k);
      WithKeyCons(s[0], s[1..], key, k);
      assert s == [s[0]] + s[1..];
      if key(x) == k {
        assert WithKey(s, key, k) == WithKey(s[1..], key, k);
        assert WithKey([s[0]] + t, key, k) == WithKey(t, key, k);
      } else {
        assert WithKey(t, key, k) == WithKey(s[1..], key, k);
      }
    }
  }

  /**
   * Insertion sort. The result is ordered, is a permutation of the input,
   * and keeps the input order among rows with equal keys.
   */
  function SortBy<T>(s: seq<T>, key: T -> int): (r: seq<T>)
    ensures SortedBy(r, key)
    ensures multiset(r) == multiset(s)
    ensures forall k :: WithKey(r, key, k) == WithKey(s, key, k)
  {
    if |s| == 0 then []
    else
      var rest := SortBy(s[1..], key);
      InsertSorted(s[0], rest, key);
      forall k ensures WithKey(Insert(s[0], rest, key), key, k) == WithKey(s, key, k) {
        InsertWithKey(s[0], rest, key, k);
      }
      assert s == [s[0]] + s[1..];
      Insert(s[0], rest, key)
  }
}
