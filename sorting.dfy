/**
 * The ordering the gallery uses everywhere: newest first, that is, descending by an integer
 * key (`sort({ createdAt: -1 })` in the store, `b.localeCompare(a)` on date keys and
 * `b.uploadDate - a.uploadDate` within a date group in the client). The sort here is a
 * stable insertion sort; the properties proved of it are the ones every caller relies on.
 */
module Sorting {

  lemma HeadTail<T>(s: seq<T>)
    requires s != []
    ensures s == [s[0]] + s[1..]
  {
  }

  /** Non-increasing by `key`. */
  predicate SortedDesc<T>(s: seq<T>, key: T -> int) {
    forall i, j :: 0 <= i < j < |s| ==> key(s[i]) >= key(s[j])
  }

  /** No element occurs twice. */
  predicate Distinct<T(==)>(s: seq<T>) {
    forall i, j :: 0 <= i < j < |s| ==> s[i] != s[j]
  }

  /** Places `x` in front of the first element whose key is smaller than its own. */
  function Insert<T(!new)>(x: T, s: seq<T>, key: T -> int): (r: seq<T>)
    requires SortedDesc(s, key)
    ensures SortedDesc(r, key)
    ensures multiset(r) == multiset(s) + multiset{x}
    ensures forall y :: y in r <==> y == x || y in s
  {
    if s == [] || key(x) >= key(s[0]) then
      SortedCons(x, s, key);
      [x] + s
    else
      var t := Insert(x, s[1..], key);
      HeadTail(s);
      forall y | y in t ensures key(s[0]) >= key(y) {
        assert y == x || y in s[1..];
      }
      SortedCons(s[0], t, key);
      [s[0]] + t
  }

  /** Putting an element with the largest key in front keeps the order. */
  lemma SortedCons<T>(a: T, t: seq<T>, key: T -> int)
    requires SortedDesc(t, key)
    requires forall y :: y in t ==> key(a) >= key(y)
    ensures SortedDesc([a] + t, key)
  {
    var r := [a] + t;
    forall i, j | 0 <= i < j < |r| ensures key(r[i]) >= key(r[j]) {
      if i == 0 {
        assert r[j] == t[j - 1];
      } else {
        assert r[i] == t[i - 1] && r[j] == t[j - 1];
      }
    }
  }

  /** Sorts `s` newest-first by `key`: the result is ordered and is a permutation of `s`. */
  function SortDesc<T(!new)>(s: seq<T>, key: T -> int): (r: seq<T>)
    ensures SortedDesc(r, key)
    ensures multiset(r) == multiset(s)
    ensures |r| == |s|
  {
    if s == [] then []
    else
      HeadTail(s);
      Insert(s[0], SortDesc(s[1..], key), key)
  }

  lemma {:induction false} InsertDistinct<T(!new)>(x: T, s: seq<T>, key: T -> int)
    requires SortedDesc(s, key) && Distinct(s) && x !in s
    ensures Distinct(Insert(x, s, key))
  {
    if s == [] || key(x) >= key(s[0]) {
    } else {
      HeadTail(s);
      InsertDistinct(x, s[1..], key);
      var t := Insert(x, s[1..], key);
      assert s[0] !in t;
    }
  }

  /** Sorting a sequence without duplicates yields a sequence without duplicates. */
  lemma {:induction false} SortDistinct<T(!new)>(s: seq<T>, key: T -> int)
    requires Distinct(s)
    ensures Distinct(SortDesc(s, key))
  {
    if s != [] {
      HeadTail(s);
      SortDistinct(s[1..], key);
      var t := SortDesc(s[1..], key);
      assert s[0] !in multiset(t);
      InsertDistinct(s[0], t, key);
    }
  }

  /** The key of a sequence of numbers: the number itself. */
  function Self(k: int): int {
    k
  }

  /** Ordered and without duplicate keys means strictly descending. */
  lemma StrictlyDescending(s: seq<int>)
    requires SortedDesc(s, Self) && Distinct(s)
    ensures forall i, j :: 0 <= i < j < |s| ==> s[i] > s[j]
  {
    forall i, j | 0 <= i < j < |s|
      ensures s[i] > s[j]
    {
      assert s[i] >= s[j] && s[i] != s[j];
    }
  }

  /** `a` is `b` with some elements left out and the rest in the same order. */
  predicate IsSubsequence<T(==)>(a: seq<T>, b: seq<T>) {
    a == [] || (b != [] && if a[0] == b[0] then IsSubsequence(a[1..], b[1..]) else IsSubsequence(a, b[1..]))
  }
}
