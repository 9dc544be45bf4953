/** Stable sorting by a real key: the specification of the library sorts the source calls. */
module Sorting {

  ghost predicate SortedBy<T>(key: T -> real, s: seq<T>) {
    forall i, j :: 0 <= i < j < |s| ==> key(s[i]) <= key(s[j])
  }

  function InsertBy<T>(key: T -> real, x: T, s: seq<T>): (r: seq<T>)
    ensures |r| == |s| + 1
    ensures multiset(r) == multiset(s) + multiset{x}
  {
    if s == [] || key(x) <= key(s[0]) then [x] + s
    else
      assert s == [s[0]] + s[1..];
      [s[0]] + InsertBy(key, x, s[1..])
  }

  function SortBy<T>(key: T -> real, s: seq<T>): (r: seq<T>)
    ensures |r| == |s|
    ensures multiset(r) == multiset(s)
  {
    if s == [] then []
    else
      assert s == [s[0]] + s[1..];
      InsertBy(key, s[0], SortBy(key, s[1..]))
  }

  lemma {:induction false} InsertBySorted<T>(key: T -> real, x: T, s: seq<T>)
    requires SortedBy(key, s)
    ensures SortedBy(key, InsertBy(key, x, s))
  {
    if s != [] && key(x) > key(s[0]) {
      var rest := InsertBy(key, x, s[1..]);
      InsertBySorted(key, x, s[1..]);
      forall i | 0 <= i < |rest| ensures key(s[0]) <= key(rest[i]) {
        assert rest[i] in multiset(rest);
        assert rest[i] == x || rest[i] in s[1..];
      }
    }
  }

  lemma {:induction false} SortBySorted<T>(key: T -> real, s: seq<T>)
    ensures SortedBy(key, SortBy(key, s))
  {
    if s != [] {
      SortBySorted(key, s[1..]);
      InsertBySorted(key, s[0], SortBy(key, s[1..]));
    }
  }

  /** The elements with key t, in order. */
  function WithKey<T>(key: T -> real, s: seq<T>, t: real): seq<T> {
    if s == [] then [] else if key(s[0]) == t then [s[0]] + WithKey(key, s[1..], t) else WithKey(key, s[1..], t)
  }

  lemma {:induction false} InsertIsStable<T>(key: T -> real, x: T, s: seq<T>, t: real)
    ensures WithKey(key, InsertBy(key, x, s), t) ==
            if key(x) == t then [x] + WithKey(key, s, t) else WithKey(key, s, t)
  {
    if s == [] || key(x) <= key(s[0]) {
      assert ([x] + s)[1..] == s;
    } else {
      InsertIsStable(key, x, s[1..], t);
      var rest := InsertBy(key, x, s[1..]);
      assert ([s[0]] + rest)[1..] == rest;
    }
  }

  /** Sorting keeps the order of elements with equal keys. */
  lemma {:induction false} SortIsStable<T>(key: T -> real, s: seq<T>, t: real)
    ensures WithKey(key, SortBy(key, s), t) == WithKey(key, s, t)
  {
    if s != [] {
      SortIsStable(key, s[1..], t);
      InsertIsStable(key, s[0], SortBy(key, s[1..]), t);
    }
  }

  /** A sorted list is left as it is; with stability this is what a second sort does. */
  lemma {:induction false} SortOfSorted<T>(key: T -> real, s: seq<T>)
    requires SortedBy(key, s)
    ensures SortBy(key, s) == s
  {
    if s != [] {
      SortOfSorted(key, s[1..]);
      assert s == [s[0]] + s[1..];
    }
  }

  lemma SameElements<T>(key: T -> real, s: seq<T>)
    ensures forall x :: x in SortBy(key, s) <==> x in s
  {
    assert forall x :: x in SortBy(key, s) <==> x in multiset(SortBy(key, s));
  }

  ghost predicate Distinct<T>(s: seq<T>) {
    forall i, j :: 0 <= i < j < |s| ==> s[i] != s[j]
  }

  lemma InsertElements<T>(key: T -> real, x: T, s: seq<T>)
    ensures forall y :: y in InsertBy(key, x, s) <==> y == x || y in s
  {
    assert forall y :: y in InsertBy(key, x, s) <==> y in multiset(InsertBy(key, x, s));
  }

  lemma {:induction false} InsertKeepsDistinct<T>(key: T -> real, x: T, s: seq<T>)
    requires Distinct(s) && x !in s
    ensures Distinct(InsertBy(key, x, s))
  {
    if s != [] && key(x) > key(s[0]) {
      InsertKeepsDistinct(key, x, s[1..]);
      InsertElements(key, x, s[1..]);
      assert s[0] !in s[1..] && s[0] != x;
    }
  }

  lemma {:induction false} SortKeepsDistinct<T>(key: T -> real, s: seq<T>)
    requires Distinct(s)
    ensures Distinct(SortBy(key, s))
  {
    if s != [] {
      SortKeepsDistinct(key, s[1..]);
      SameElements(key, s[1..]);
      InsertKeepsDistinct(key, s[0], SortBy(key, s[1..]));
    }
  }
}
