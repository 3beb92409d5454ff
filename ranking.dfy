/**
 * `list.sort(key=..., reverse=True)` as both rankings use it: a stable sort
 * by descending key, written as an insertion sort.  It is a permutation of
 * its input, its keys do not increase, and entries with equal keys keep
 * their order.
 */
module Ranking {
  /** Inserts `x` before the first entry whose key is not greater than its own. */
  function Insert<T>(x: T, l: seq<T>, key: T -> nat): (r: seq<T>)
    ensures |r| == |l| + 1
  {
    if l == [] || key(x) >= key(l[0]) then [x] + l
    else [l[0]] + Insert(x, l[1..], key)
  }

  /** The stable sort by descending `key`. */
  function SortDescending<T>(xs: seq<T>, key: T -> nat): (r: seq<T>)
    ensures |r| == |xs|
  {
    if xs == [] then [] else Insert(xs[0], SortDescending(xs[1..], key), key)
  }

  predicate Descending<T>(s: seq<T>, key: T -> nat) {
    forall i, j | 0 <= i < j < |s| :: key(s[i]) >= key(s[j])
  }

  /** The entries whose key is `v`, in order. */
  function WithKey<T>(s: seq<T>, key: T -> nat, v: nat): seq<T> {
    if s == [] then [] else (if key(s[0]) == v then [s[0]] else []) + WithKey(s[1..], key, v)
  }

  lemma {:induction false} InsertPermutes<T>(x: T, l: seq<T>, key: T -> nat)
    ensures multiset(Insert(x, l, key)) == multiset(l) + multiset{x}
  {
    if l != [] && key(x) < key(l[0]) {
      InsertPermutes(x, l[1..], key);
      assert l == [l[0]] + l[1..];
    }
  }

  /** The sort is a permutation. */
  lemma {:induction false} SortPermutes<T>(xs: seq<T>, key: T -> nat)
    ensures multiset(SortDescending(xs, key)) == multiset(xs)
  {
    if xs != [] {
      SortPermutes(xs[1..], key);
      InsertPermutes(xs[0], SortDescending(xs[1..], key), key);
      assert xs == [xs[0]] + xs[1..];
    }
  }

  /** Every key of an insertion is bounded by `b` when `x`'s and those of `l` are. */
  lemma {:induction false} InsertBounded<T>(x: T, l: seq<T>, key: T -> nat, b: nat)
    requires key(x) <= b
    requires forall k | 0 <= k < |l| :: key(l[k]) <= b
    ensures forall k | 0 <= k < |l| + 1 :: key(Insert(x, l, key)[k]) <= b
  {
    if l != [] && key(x) < key(l[0]) {
      InsertBounded(x, l[1..], key, b);
    }
  }

  lemma {:induction false} InsertDescends<T>(x: T, l: seq<T>, key: T -> nat)
    requires Descending(l, key)
    ensures Descending(Insert(x, l, key), key)
  {
    if l != [] && key(x) < key(l[0]) {
      InsertDescends(x, l[1..], key);
      InsertBounded(x, l[1..], key, key(l[0]));
    }
  }

  /** The keys of the sorted list do not increase. */
  lemma {:induction false} SortDescends<T>(xs: seq<T>, key: T -> nat)
    ensures Descending(SortDescending(xs, key), key)
  {
    if xs != [] {
      SortDescends(xs[1..], key);
      InsertDescends(xs[0], SortDescending(xs[1..], key), key);
    }
  }

  lemma WithKeyCons<T>(e: T, s: seq<T>, key: T -> nat, v: nat)
    ensures WithKey([e] + s, key, v) == (if key(e) == v then [e] else []) + WithKey(s, key, v)
  {
    assert ([e] + s)[1..] == s;
  }

  lemma {:induction false} InsertStable<T>(x: T, l: seq<T>, key: T -> nat, v: nat)
    ensures WithKey(Insert(x, l, key), key, v) == WithKey([x] + l, key, v)
  {
    if l != [] && key(x) < key(l[0]) {
      var tail := l[1..];
      var ex := if key(x) == v then [x] else [];
      var el := if key(l[0]) == v then [l[0]] else [];
      var wt := WithKey(tail, key, v);
      assert Insert(x, l, key) == [l[0]] + Insert(x, tail, key);
      InsertStable(x, tail, key, v);
      WithKeyCons(l[0], Insert(x, tail, key), key, v);
      WithKeyCons(x, tail, key, v);
      assert WithKey(Insert(x, l, key), key, v) == el + (ex + wt);
      assert l == [l[0]] + tail;
      WithKeyCons(l[0], tail, key, v);
      WithKeyCons(x, l, key, v);
      assert WithKey([x] + l, key, v) == ex + (el + wt);
      SwapSingles(ex, el, wt);
    }
  }

  /** When `a` or `b` is empty, the two commute in front of `c`. */
  lemma SwapSingles<T>(a: seq<T>, b: seq<T>, c: seq<T>)
    requires a == [] || b == []
    ensures b + (a + c) == a + (b + c)
  {
  }

  /** Stability: for every key value, the entries with that key keep their order. */
  lemma {:induction false} SortStable<T>(xs: seq<T>, key: T -> nat, v: nat)
    ensures WithKey(SortDescending(xs, key), key, v) == WithKey(xs, key, v)
  {
    if xs != [] {
      SortStable(xs[1..], key, v);
      InsertStable(xs[0], SortDescending(xs[1..], key), key, v);
      assert ([xs[0]] + SortDescending(xs[1..], key))[1..] == SortDescending(xs[1..], key);
      assert xs == [xs[0]] + xs[1..];
    }
  }

  /** A list whose keys are all equal is already sorted. */
  lemma {:induction false} SortUniformIdentity<T>(xs: seq<T>, key: T -> nat, v: nat)
    requires forall k | 0 <= k < |xs| :: key(xs[k]) == v
    ensures SortDescending(xs, key) == xs
  {
    if xs != [] {
      SortUniformIdentity(xs[1..], key, v);
      assert xs == [xs[0]] + xs[1..];
    }
  }
}
