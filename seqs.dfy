/** The two query capabilities the document store offers the backend:
    selecting the records that satisfy a condition (`find({...})`) and
    ordering them by an integer key (`.sort({ createdAt: ±1 })`). */
module Seqs {

  /** The records of `xs` that satisfy `p`, in their stored order. */
  function Filter<T(!new)>(xs: seq<T>, p: T -> bool): (r: seq<T>)
    ensures |r| <= |xs|
    ensures forall x :: x in r <==> x in xs && p(x)
    ensures forall x :: multiset(r)[x] == if p(x) then multiset(xs)[x] else 0
  {
    if xs == [] then []
    else
      assert xs == [xs[0]] + xs[1..];
      (if p(xs[0]) then [xs[0]] else []) + Filter(xs[1..], p)
  }

  ghost predicate SortedBy<T>(xs: seq<T>, key: T -> int) {
    forall i, j :: 0 <= i < j < |xs| ==> key(xs[i]) <= key(xs[j])
  }

  /** A record whose key is no larger than any key of an ordered list may
      be put in front of it. */
  lemma SortedCons<T>(x: T, xs: seq<T>, key: T -> int)
    requires SortedBy(xs, key)
    requires forall y :: y in xs ==> key(x) <= key(y)
    ensures SortedBy([x] + xs, key)
  {
    var r := [x] + xs;
    forall i, j | 0 <= i < j < |r| ensures key(r[i]) <= key(r[j]) {
      assert r[j] == xs[j - 1];
      if i > 0 {
        assert r[i] == xs[i - 1];
      }
    }
  }

  /** The first record of an ordered list has the smallest key. */
  lemma SortedHead<T>(xs: seq<T>, key: T -> int)
    requires SortedBy(xs, key) && xs != []
    ensures SortedBy(xs[1..], key)
    ensures forall y :: y in xs ==> key(xs[0]) <= key(y)
  {
    forall i, j | 0 <= i < j < |xs[1..]| ensures key(xs[1..][i]) <= key(xs[1..][j]) {
      assert xs[1..][i] == xs[i + 1] && xs[1..][j] == xs[j + 1];
    }
  }

  /** A record whose key is no larger than the first key of an ordered
      list may be put in front of it. */
  lemma SortedFront<T>(x: T, xs: seq<T>, key: T -> int)
    requires SortedBy(xs, key)
    requires xs == [] || key(x) <= key(xs[0])
    ensures SortedBy([x] + xs, key)
  {
    if xs != [] {
      SortedHead(xs, key);
    }
    SortedCons(x, xs, key);
  }

  /** Selecting records out of an ordered list keeps it ordered. */
  lemma {:induction false} FilterKeepsOrder<T(!new)>(xs: seq<T>, p: T -> bool, key: T -> int)
    requires SortedBy(xs, key)
    ensures SortedBy(Filter(xs, p), key)
  {
    if xs != [] {
      SortedHead(xs, key);
      FilterKeepsOrder(xs[1..], p, key);
      var rest := Filter(xs[1..], p);
      if p(xs[0]) {
        SortedCons(xs[0], rest, key);
      } else {
        assert Filter(xs, p) == [] + rest == rest;
      }
    }
  }

  /** `x` placed in front of the first element of `xs` whose key is larger. */
  function Insert<T>(x: T, xs: seq<T>, key: T -> int): (r: seq<T>)
    requires SortedBy(xs, key)
    ensures multiset(r) == multiset(xs) + multiset{x}
    ensures SortedBy(r, key)
  {
    if xs == [] || key(x) <= key(xs[0]) then
      SortedFront(x, xs, key);
      [x] + xs
    else
      SortedHead(xs, key);
      var tail := Insert(x, xs[1..], key);
      assert xs == [xs[0]] + xs[1..];
      assert forall y :: y in tail ==> key(xs[0]) <= key(y) by {
        forall y | y in tail ensures key(xs[0]) <= key(y) {
          assert y in multiset(tail);
        }
      }
      SortedCons(xs[0], tail, key);
      [xs[0]] + tail
  }

  /** Insertion sort by `key`, ascending: the order a store query with
      `.sort({ field: 1 })` returns. */
  function SortBy<T>(xs: seq<T>, key: T -> int): (r: seq<T>)
    ensures multiset(r) == multiset(xs)
    ensures SortedBy(r, key)
  {
    if xs == [] then []
    else
      assert xs == [xs[0]] + xs[1..];
      Insert(xs[0], SortBy(xs[1..], key), key)
  }

  /** Two orderings of the same records hold the same records. */
  lemma SameElements<T>(a: seq<T>, b: seq<T>)
    requires multiset(a) == multiset(b)
    ensures forall x :: x in a <==> x in b
  {
    forall x ensures x in a <==> x in b {
      assert x in a <==> x in multiset(a);
      assert x in b <==> x in multiset(b);
    }
  }
}
