/**
 * Sequence helpers behind the store's `WHERE … ORDER BY … LIMIT` queries:
 * filtering, a stable insertion sort by an integer key, and taking a prefix.
 */
module Ordering {

  /** The rows of `xs` that satisfy `p`, in their original order. */
  function Filter<T(!new)>(xs: seq<T>, p: T -> bool): (r: seq<T>)
    ensures forall x :: multiset(r)[x] == if p(x) then multiset(xs)[x] else 0
    ensures forall i :: 0 <= i < |r| ==> p(r[i])
    ensures |r| <= |xs|
  {
    if |xs| == 0 then []
    else
      assert xs == [xs[0]] + xs[1..];
      if p(xs[0]) then [xs[0]] + Filter(xs[1..], p) else Filter(xs[1..], p)
  }

  /** `key` never decreases along `xs` (any two positions, not just neighbours). */
  ghost predicate SortedBy<T>(xs: seq<T>, key: T -> int) {
    forall i, j :: 0 <= i < j < |xs| ==> key(xs[i]) <= key(xs[j])
  }

  /** Places `x` after every element whose key is smaller than its own. */
  function Insert<T>(x: T, xs: seq<T>, key: T -> int): (r: seq<T>)
    requires SortedBy(xs, key)
    ensures multiset(r) == multiset{x} + multiset(xs)
    ensures SortedBy(r, key)
    decreases |xs|
  {
    if |xs| == 0 then [x]
    else if key(x) <= key(xs[0]) then
      ConsSorted(x, xs, key);
      [x] + xs
    else
      var tail := Insert(x, xs[1..], key);
      assert xs == [xs[0]] + xs[1..];
      TailAbove(xs, x, tail, key);
      ConsSorted(xs[0], tail, key);
      [xs[0]] + tail
  }

  /** An element whose key is at most the first key of a sorted sequence can go in
      front of it. */
  lemma ConsSorted<T>(y: T, ys: seq<T>, key: T -> int)
    requires SortedBy(ys, key)
    requires |ys| > 0 ==> key(y) <= key(ys[0])
    ensures SortedBy([y] + ys, key)
  {
    forall i, j | 0 <= i < j < |[y] + ys| ensures key(([y] + ys)[i]) <= key(([y] + ys)[j]) {
      assert ([y] + ys)[j] == ys[j - 1];
      if i > 0 {
        assert ([y] + ys)[i] == ys[i - 1];
      }
    }
  }

  /** Inserting into the tail of a sorted sequence an element with a larger key than
      its head leaves only keys at least the head's. */
  lemma TailAbove<T>(xs: seq<T>, x: T, tail: seq<T>, key: T -> int)
    requires SortedBy(xs, key) && |xs| > 0 && key(xs[0]) < key(x)
    requires multiset(tail) == multiset{x} + multiset(xs[1..])
    ensures forall k :: 0 <= k < |tail| ==> key(xs[0]) <= key(tail[k])
  {
    forall k | 0 <= k < |tail| ensures key(xs[0]) <= key(tail[k]) {
      assert tail[k] in multiset(tail);
      if tail[k] != x {
        assert tail[k] in multiset(xs[1..]);
        var j :| 0 <= j < |xs[1..]| && xs[1..][j] == tail[k];
        assert xs[j + 1] == tail[k];
      }
    }
  }

  /** Insertion sort: a permutation of `xs` ordered by `key`. */
  function SortBy<T>(xs: seq<T>, key: T -> int): (r: seq<T>)
    ensures multiset(r) == multiset(xs)
    ensures SortedBy(r, key)
    decreases |xs|
  {
    if |xs| == 0 then []
    else
      assert xs == [xs[0]] + xs[1..];
      Insert(xs[0], SortBy(xs[1..], key), key)
  }

  /** The first `n` elements, or all of them when there are fewer (`LIMIT n`, `xs[:n]`). */
  function Take<T>(xs: seq<T>, n: nat): (r: seq<T>)
    ensures |r| == if n < |xs| then n else |xs|
    ensures r <= xs
  {
    if n < |xs| then xs[..n] else xs
  }

  /** An element of a sorted sequence that the prefix left out sorts no earlier than
      anything the prefix kept. */
  lemma PrefixKeepsSmallest<T>(xs: seq<T>, key: T -> int, n: nat, y: T)
    requires SortedBy(xs, key)
    requires y in xs && y !in Take(xs, n)
    ensures forall x :: x in Take(xs, n) ==> key(x) <= key(y)
  {
    var j :| 0 <= j < |xs| && xs[j] == y;
    var r := Take(xs, n);
    assert j >= |r|;
    forall x | x in r ensures key(x) <= key(y) {
      var i :| 0 <= i < |r| && r[i] == x;
      assert xs[i] == x;
    }
  }

  /** Multiset counts of a prefix never exceed those of the whole sequence. */
  lemma TakeCount<T>(xs: seq<T>, n: nat, x: T)
    ensures multiset(Take(xs, n))[x] <= multiset(xs)[x]
  {
    var r := Take(xs, n);
    assert xs == r + xs[|r|..];
  }
}
