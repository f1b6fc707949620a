/**
 * Python's `list.sort(key=...)`: a stable sort on an integer key.  A sort
 * with `reverse=True` is the same stable sort on the negated key (Python keeps
 * equal elements in their original order in both directions).
 */
module Sorting {

  predicate SortedBy<T>(s: seq<T>, key: T -> int) {
    forall i, j :: 0 <= i < j < |s| ==> key(s[i]) <= key(s[j])
  }

  /** The elements whose key is `k`, in their order in `s`. */
  function WithKey<T>(s: seq<T>, key: T -> int, k: int): (r: seq<T>)
    ensures |r| <= |s|
  {
    if s == [] then []
    else if key(s[0]) == k then [s[0]] + WithKey(s[1..], key, k)
    else WithKey(s[1..], key, k)
  }

  lemma {:induction false} WithKeyAppend<T>(s: seq<T>, t: seq<T>, key: T -> int, k: int)
    ensures WithKey(s + t, key, k) == WithKey(s, key, k) + WithKey(t, key, k)
  {
    if s == [] {
      assert s + t == t;
    } else {
      assert (s + t)[1..] == s[1..] + t;
      WithKeyAppend(s[1..], t, key, k);
    }
  }

  /** Place `x` after every element whose key is not greater than its own. */
  function Insert<T>(x: T, s: seq<T>, key: T -> int): (r: seq<T>)
    ensures |r| == |s| + 1
    ensures multiset(r) == multiset(s) + multiset{x}
  {
    if s == [] || key(x) < key(s[0]) then [x] + s
    else
      assert s == [s[0]] + s[1..];
      [s[0]] + Insert(x, s[1..], key)
  }

  lemma {:induction false} InsertSorted<T>(x: T, s: seq<T>, key: T -> int)
    requires SortedBy(s, key)
    ensures SortedBy(Insert(x, s, key), key)
  {
    if s != [] && key(x) >= key(s[0]) {
      InsertSorted(x, s[1..], key);
      var r := Insert(x, s, key);
      var t := Insert(x, s[1..], key);
      assert r == [s[0]] + t;
      forall i | 0 < i < |r| ensures key(s[0]) <= key(r[i]) {
        assert r[i] == t[i - 1];
        assert t[i - 1] in multiset(t);
        if t[i - 1] != x {
          assert t[i - 1] in s[1..];
        }
      }
    }
  }

  lemma {:induction false} InsertWithKey<T>(x: T, s: seq<T>, key: T -> int, k: int)
    requires SortedBy(s, key)
    ensures WithKey(Insert(x, s, key), key, k) == WithKey(s, key, k) + WithKey([x], key, k)
  {
    if s == [] {
    } else if key(x) < key(s[0]) {
      if key(x) == k {
        // every element of the sorted s has a key above k
        NoneWithSmallerKey(s, key, k);
      }
    } else {
      InsertWithKey(x, s[1..], key, k);
    }
  }

  lemma {:induction false} NoneWithSmallerKey<T>(s: seq<T>, key: T -> int, k: int)
    requires SortedBy(s, key) && s != [] && k < key(s[0])
    ensures WithKey(s, key, k) == []
  {
    if |s| > 1 {
      NoneWithSmallerKey(s[1..], key, k);
    }
  }

  /** Stable insertion sort: the elements of `s` taken left to right, each placed
      after everything already placed whose key is not greater. */
  function SortBy<T>(s: seq<T>, key: T -> int): (r: seq<T>)
    ensures |r| == |s|
    ensures SortedBy(r, key)
    ensures multiset(r) == multiset(s)
  {
    if s == [] then []
    else
      var p := SortBy(s[..|s| - 1], key);
      assert s == s[..|s| - 1] + [s[|s| - 1]];
      InsertSorted(s[|s| - 1], p, key);
      Insert(s[|s| - 1], p, key)
  }

  /** The sort is stable and loses nothing: for every key, the elements with that
      key come out exactly as they went in, in the same order. */
  lemma {:induction false} SortByStable<T>(s: seq<T>, key: T -> int, k: int)
    ensures WithKey(SortBy(s, key), key, k) == WithKey(s, key, k)
  {
    if s != [] {
      var init, x := s[..|s| - 1], s[|s| - 1];
      var p := SortBy(init, key);
      calc {
        WithKey(SortBy(s, key), key, k);
        WithKey(Insert(x, p, key), key, k);
        { InsertWithKey(x, p, key, k); }
        WithKey(p, key, k) + WithKey([x], key, k);
        { SortByStable(init, key, k); }
        WithKey(init, key, k) + WithKey([x], key, k);
        { WithKeyAppend(init, [x], key, k); }
        WithKey(init + [x], key, k);
        { assert s == init + [x]; }
        WithKey(s, key, k);
      }
    }
  }

  /** Sorting a sequence that is already sorted changes nothing. */
  lemma {:induction false} SortBySorted<T>(s: seq<T>, key: T -> int)
    requires SortedBy(s, key)
    ensures SortBy(s, key) == s
  {
    if s != [] {
      var init, x := s[..|s| - 1], s[|s| - 1];
      SortBySorted(init, key);
      InsertAtEnd(x, init, key);
    }
  }

  lemma {:induction false} InsertAtEnd<T>(x: T, s: seq<T>, key: T -> int)
    requires forall i :: 0 <= i < |s| ==> key(s[i]) <= key(x)
    ensures Insert(x, s, key) == s + [x]
  {
    if s != [] {
      InsertAtEnd(x, s[1..], key);
    }
  }
}
