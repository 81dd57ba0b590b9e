/**
 * Stable sorting by a numeric key, the behaviour of `Array.prototype.sort`
 * with a comparator that subtracts keys: insertion sort, proved to sort, to
 * permute and to keep equal keys in their original order.
 */
module Sorting {

  predicate SortedBy<T>(s: seq<T>, key: T -> real) {
    forall i, j :: 0 <= i < j < |s| ==> key(s[i]) <= key(s[j])
  }

  /** Puts `x` in front of the first element whose key is not smaller. */
  function InsertBy<T(==)>(x: T, s: seq<T>, key: T -> real): (r: seq<T>)
    ensures |r| == |s| + 1
    ensures r[0] == x || (s != [] && r[0] == s[0])
  {
    if s == [] || key(x) <= key(s[0]) then [x] + s
    else [s[0]] + InsertBy(x, s[1..], key)
  }

  /** Inserting adds `x` and loses nothing. */
  lemma {:induction false} InsertPerm<T>(x: T, s: seq<T>, key: T -> real)
    ensures multiset(InsertBy(x, s, key)) == multiset(s) + multiset{x}
  {
    if s != [] && key(x) > key(s[0]) {
      InsertPerm(x, s[1..], key);
      assert s == [s[0]] + s[1..];
    }
  }

  /** Inserting into a sorted sequence keeps it sorted. */
  lemma {:induction false} InsertSorted<T>(x: T, s: seq<T>, key: T -> real)
    requires SortedBy(s, key)
    ensures SortedBy(InsertBy(x, s, key), key)
  {
    if s != [] && key(x) > key(s[0]) {
      InsertSorted(x, s[1..], key);
      var t := InsertBy(x, s[1..], key);
      assert forall j :: 0 <= j < |t| ==> key(s[0]) <= key(t[j]) by {
        InsertPerm(x, s[1..], key);
        forall j | 0 <= j < |t|
          ensures key(s[0]) <= key(t[j])
        {
          assert t[j] in multiset(t);
          assert t[j] == x || t[j] in multiset(s[1..]);
        }
      }
    }
  }

  /** `[...s].sort((a, b) => key(a) - key(b))`. */
  function SortBy<T(==)>(s: seq<T>, key: T -> real): (r: seq<T>)
    ensures |r| == |s|
    ensures multiset(r) == multiset(s)
    ensures SortedBy(r, key)
  {
    if s == [] then []
    else
      var t := SortBy(s[1..], key);
      assert s == [s[0]] + s[1..];
      InsertPerm(s[0], t, key);
      InsertSorted(s[0], t, key);
      InsertBy(s[0], t, key)
  }

  /** The elements whose key is `k`, in order. */
  function WithKey<T>(s: seq<T>, key: T -> real, k: real): seq<T> {
    if s == [] then [] else (if key(s[0]) == k then [s[0]] else []) + WithKey(s[1..], key, k)
  }

  lemma WithKeyCons<T>(y: T, s: seq<T>, key: T -> real, k: real)
    ensures WithKey([y] + s, key, k) == (if key(y) == k then [y] else []) + WithKey(s, key, k)
  {
    assert ([y] + s)[1..] == s;
  }

  lemma {:induction false} InsertStable<T>(x: T, s: seq<T>, key: T -> real, k: real)
    requires SortedBy(s, key)
    ensures WithKey(InsertBy(x, s, key), key, k) == (if key(x) == k then [x] else []) + WithKey(s, key, k)
  {
    if s == [] || key(x) <= key(s[0]) {
      WithKeyCons(x, s, key, k);
    } else {
      var y := s[0];
      var t := InsertBy(x, s[1..], key);
      assert InsertBy(x, s, key) == [y] + t;
      assert SortedBy(s[1..], key);
      InsertStable(x, s[1..], key, k);
      WithKeyCons(y, t, key, k);
      assert s == [y] + s[1..];
      WithKeyCons(y, s[1..], key, k);
      SwapFront(if key(x) == k then [x] else [], if key(y) == k then [y] else [], WithKey(s[1..], key, k));
    }
  }

  lemma SwapFront<T>(ex: seq<T>, ey: seq<T>, w: seq<T>)
    requires ex == [] || ey == []
    ensures ey + (ex + w) == ex + (ey + w)
  {
  }

  /** The sort is stable: the elements with any one key keep their relative order. */
  lemma {:induction false} SortStable<T>(s: seq<T>, key: T -> real, k: real)
    ensures WithKey(SortBy(s, key), key, k) == WithKey(s, key, k)
  {
    if s != [] {
      SortStable(s[1..], key, k);
      InsertStable(s[0], SortBy(s[1..], key), key, k);
    }
  }
}
