/** Python's `sorted(xs, key=key)` for an integer-valued key: a stable
    insertion sort, with its specification (ordered, a permutation, and equal
    keys keep their input order) proved. */
module Sorting {

  predicate SortedBy<T>(s: seq<T>, key: T -> int)
  {
    forall i, j :: 0 <= i < j < |s| ==> key(s[i]) <= key(s[j])
  }

  /** The elements of `s` whose key is `v`, in their order in `s`. */
  function WithKey<T>(s: seq<T>, key: T -> int, v: int): seq<T>
  {
    if s == [] then []
    else (if key(s[0]) == v then [s[0]] else []) + WithKey(s[1..], key, v)
  }

  /** Every element of a permutation of `t` plus `x` has a key of at
      least `b` when those of `t` and `x` do. */
  lemma BoundOfPermutation<T>(b: int, t: seq<T>, x: T, u: seq<T>, key: T -> int)
    requires multiset(u) == multiset(t) + multiset{x}
    requires b <= key(x) && forall i :: 0 <= i < |t| ==> b <= key(t[i])
    ensures forall i :: 0 <= i < |u| ==> b <= key(u[i])
  {
    forall i | 0 <= i < |u| ensures b <= key(u[i]) {
      assert u[i] in multiset(u);
      if u[i] != x {
        assert u[i] in multiset(t);
        var j :| 0 <= j < |t| && t[j] == u[i];
      }
    }
  }

  lemma SortedCons<T>(y: T, t: seq<T>, key: T -> int)
    requires SortedBy(t, key) && forall i :: 0 <= i < |t| ==> key(y) <= key(t[i])
    ensures SortedBy([y] + t, key)
  {
    forall i, j | 0 <= i < j < |[y] + t| ensures key(([y] + t)[i]) <= key(([y] + t)[j]) {
      if i > 0 {
        assert ([y] + t)[i] == t[i - 1];
      }
      assert ([y] + t)[j] == t[j - 1];
    }
  }

  /** Inserts `x` before the first element whose key is not below `key(x)`. */
  function Insert<T>(x: T, s: seq<T>, key: T -> int): (r: seq<T>)
    requires SortedBy(s, key)
    ensures SortedBy(r, key)
    ensures multiset(r) == multiset(s) + multiset{x}
  {
    if s == [] then [x]
    else if key(x) <= key(s[0]) then
      SortedCons(x, s, key);
      [x] + s
    else
      var tail := s[1..];
      assert SortedBy(tail, key);
      var rest := Insert(x, tail, key);
      BoundOfPermutation(key(s[0]), tail, x, rest, key);
      SortedCons(s[0], rest, key);
      assert s == [s[0]] + tail;
      [s[0]] + rest
  }

  /** `sorted(s, key=key)`. */
  function Sort<T>(s: seq<T>, key: T -> int): (r: seq<T>)
    ensures SortedBy(r, key)
    ensures multiset(r) == multiset(s)
  {
    if s == [] then []
    else
      assert s == [s[0]] + s[1..];
      Insert(s[0], Sort(s[1..], key), key)
  }

  lemma WithKeyOfCons<T>(y: T, t: seq<T>, key: T -> int, v: int)
    ensures WithKey([y] + t, key, v) == (if key(y) == v then [y] else []) + WithKey(t, key, v)
  {
    assert ([y] + t)[1..] == t;
  }

  lemma {:induction false} WithKeyOfInsert<T>(x: T, s: seq<T>, key: T -> int, v: int)
    requires SortedBy(s, key)
    ensures WithKey(Insert(x, s, key), key, v)
         == (if key(x) == v then [x] else []) + WithKey(s, key, v)
  {
    if s == [] {
    } else if key(x) <= key(s[0]) {
      WithKeyOfCons(x, s, key, v);
    } else {
      var tail := s[1..];
      assert SortedBy(tail, key);
      var rest := Insert(x, tail, key);
      assert Insert(x, s, key) == [s[0]] + rest;
      WithKeyOfInsert(x, tail, key, v);
      WithKeyOfCons(s[0], rest, key, v);
      WithKeyOfCons(s[0], tail, key, v);
      assert s == [s[0]] + tail;
      // s[0] sorts strictly before x, so only one of them can have key v
      assert key(s[0]) != v || key(x) != v;
    }
  }

  /** Stability: for every key, the elements with that key keep their order. */
  lemma {:induction false} SortIsStable<T>(s: seq<T>, key: T -> int, v: int)
    ensures WithKey(Sort(s, key), key, v) == WithKey(s, key, v)
  {
    if s != [] {
      SortIsStable(s[1..], key, v);
      WithKeyOfInsert(s[0], Sort(s[1..], key), key, v);
    }
  }

  /** A list equals its sorted copy exactly when it is already in order. */
  lemma {:induction false} SortFixesExactlySorted<T>(s: seq<T>, key: T -> int)
    ensures Sort(s, key) == s <==> SortedBy(s, key)
  {
    if SortedBy(s, key) && s != [] {
      assert SortedBy(s[1..], key);
      SortFixesExactlySorted(s[1..], key);
      assert s == [s[0]] + s[1..];
    }
  }

  /** The order `sorted` uses on plain integers: each is its own key.  One
      named function, so that every sort of integers sorts by the same key. */
  function Identity(n: int): int
  {
    n
  }
}
