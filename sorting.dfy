/**
 * Python's `list.sort(key=...)` and `sorted(..., key=...)` for real-valued
 * keys: a stable sort, written as insertion sort.
 */
module Sorting {

  /** `s` is in non-decreasing order of `key`. */
  ghost predicate SortedBy<T>(s: seq<T>, key: T -> real) {
    forall i, j :: 0 <= i < j < |s| ==> key(s[i]) <= key(s[j])
  }

  /** `x` placed after every element of `s` whose key is not larger (keeps equal keys in order). */
  function InsertBy<T>(s: seq<T>, x: T, key: T -> real): (r: seq<T>)
    ensures |r| == |s| + 1
    ensures multiset(r) == multiset(s) + multiset{x}
    decreases |s|
  {
    if s == [] || key(s[|s| - 1]) <= key(x) then s + [x]
    else
      var r := InsertBy(s[..|s| - 1], x, key) + [s[|s| - 1]];
      assert s == s[..|s| - 1] + [s[|s| - 1]];
      r
  }

  /** The stable sort of `s` by `key`. */
  function SortBy<T>(s: seq<T>, key: T -> real): (r: seq<T>)
    ensures |r| == |s|
    ensures multiset(r) == multiset(s)
    decreases |s|
  {
    if s == [] then []
    else
      assert s == s[..|s| - 1] + [s[|s| - 1]];
      InsertBy(SortBy(s[..|s| - 1], key), s[|s| - 1], key)
  }

  lemma {:induction false} InsertBySorted<T>(s: seq<T>, x: T, key: T -> real)
    requires SortedBy(s, key)
    ensures SortedBy(InsertBy(s, x, key), key)
    decreases |s|
  {
    if s == [] || key(s[|s| - 1]) <= key(x) {
    } else {
      var p := s[..|s| - 1];
      var last := s[|s| - 1];
      InsertBySorted(p, x, key);
      var q := InsertBy(p, x, key);
      assert forall y :: y in multiset(q) ==> key(y) <= key(last) by {
        forall y | y in multiset(q)
          ensures key(y) <= key(last)
        {
          assert y in multiset(p) + multiset{x};
          if y in multiset(p) {
            var i :| 0 <= i < |p| && p[i] == y;
            assert s[i] == y;
          }
        }
      }
      forall i | 0 <= i < |q|
        ensures key(q[i]) <= key(last)
      {
        assert q[i] in multiset(q);
      }
    }
  }

  /** The result of `SortBy` is ordered by the key. */
  lemma {:induction false} SortBySorted<T>(s: seq<T>, key: T -> real)
    ensures SortedBy(SortBy(s, key), key)
    decreases |s|
  {
    if s != [] {
      SortBySorted(s[..|s| - 1], key);
      InsertBySorted(SortBy(s[..|s| - 1], key), s[|s| - 1], key);
    }
  }

  /** Sorting keeps exactly the elements: same multiset, hence same set. */
  lemma SortByMembers<T>(s: seq<T>, key: T -> real)
    ensures forall x :: x in SortBy(s, key) <==> x in s
  {
    var r := SortBy(s, key);
    forall x
      ensures x in r <==> x in s
    {
      assert x in r <==> x in multiset(r);
      assert x in s <==> x in multiset(s);
    }
  }

  /** The elements of `s` whose key is `k`, in their order in `s`. */
  function WithKey<T>(s: seq<T>, key: T -> real, k: real): seq<T>
    decreases |s|
  {
    if s == [] then []
    else WithKey(s[..|s| - 1], key, k) + (if key(s[|s| - 1]) == k then [s[|s| - 1]] else [])
  }

  lemma WithKeySnoc<T>(s: seq<T>, x: T, key: T -> real, k: real)
    ensures WithKey(s + [x], key, k) == WithKey(s, key, k) + (if key(x) == k then [x] else [])
  {
    assert (s + [x])[..|s|] == s;
  }

  /** Inserting `x` puts it after every element of equal key and moves no two equal-key elements past each other. */
  lemma {:induction false} InsertByWithKey<T>(s: seq<T>, x: T, key: T -> real, k: real)
    ensures WithKey(InsertBy(s, x, key), key, k) == WithKey(s, key, k) + (if key(x) == k then [x] else [])
    decreases |s|
  {
    if s == [] || key(s[|s| - 1]) <= key(x) {
      WithKeySnoc(s, x, key, k);
    } else {
      var p, last := s[..|s| - 1], s[|s| - 1];
      var xs: seq<T> := if key(x) == k then [x] else [];
      var ls: seq<T> := if key(last) == k then [last] else [];
      InsertByWithKey(p, x, key, k);
      assert InsertBy(s, x, key) == InsertBy(p, x, key) + [last];
      WithKeySnoc(InsertBy(p, x, key), last, key, k);
      assert WithKey(InsertBy(s, x, key), key, k) == WithKey(p, key, k) + xs + ls;
      assert WithKey(s, key, k) == WithKey(p, key, k) + ls;
      // `last` goes after `x` only when its key is larger, so at most one of the two has key `k`
      assert xs == [] || ls == [];
    }
  }

  /** Sorting is stable: the elements sharing any one key keep their input order. */
  lemma {:induction false} SortByStable<T>(s: seq<T>, key: T -> real, k: real)
    ensures WithKey(SortBy(s, key), key, k) == WithKey(s, key, k)
    decreases |s|
  {
    if s != [] {
      var p, last := s[..|s| - 1], s[|s| - 1];
      SortByStable(p, key, k);
      InsertByWithKey(SortBy(p, key), last, key, k);
    }
  }
}
