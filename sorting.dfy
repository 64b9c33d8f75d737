/**
 * Python's `list.sort`, which the extraction code uses twice: on the sampled
 * elapsed times (sorted by value) and on the collected readings (sorted by frame).
 * The sort is stable, like Python's: elements with equal keys keep their order.
 * Here it is a function on sequences, built by insertion, keyed by an integer.
 */
module Sorting {

  predicate SortedBy<T>(s: seq<T>, key: T -> int) {
    forall i, j :: 0 <= i < j < |s| ==> key(s[i]) <= key(s[j])
  }

  /** The elements of `s` whose key is `k`, in their order in `s`. */
  function WithKey<T>(s: seq<T>, key: T -> int, k: int): seq<T> {
    if s == [] then []
    else WithKey(s[..|s| - 1], key, k) + (if key(s[|s| - 1]) == k then [s[|s| - 1]] else [])
  }

  /** Every key in `s` is at most `b`. */
  predicate KeysAtMost<T>(s: seq<T>, key: T -> int, b: int) {
    forall i :: 0 <= i < |s| ==> key(s[i]) <= b
  }

  /** Inserts `x` after every element whose key is at most `x`'s. */
  function Insert<T>(s: seq<T>, x: T, key: T -> int): (r: seq<T>)
    ensures |r| == |s| + 1
  {
    if s == [] then [x]
    else if key(s[|s| - 1]) <= key(x) then s + [x]
    else Insert(s[..|s| - 1], x, key) + [s[|s| - 1]]
  }

  /** `sorted(s, key=key)`: in key order, and holding the same elements. */
  function SortBy<T>(s: seq<T>, key: T -> int): (r: seq<T>)
    ensures |r| == |s|
    ensures SortedBy(r, key)
    ensures multiset(r) == multiset(s)
  {
    if s == [] then []
    else
      var init, last := s[..|s| - 1], s[|s| - 1];
      var sorted := SortBy(init, key);
      InsertSorted(sorted, last, key);
      InsertPermutes(sorted, last, key);
      assert s == init + [last];
      Insert(sorted, last, key)
  }

  lemma {:induction false} InsertAtMost<T>(s: seq<T>, x: T, key: T -> int, b: int)
    requires KeysAtMost(s, key, b) && key(x) <= b
    ensures KeysAtMost(Insert(s, x, key), key, b)
  {
    if s != [] && key(s[|s| - 1]) > key(x) {
      InsertAtMost(s[..|s| - 1], x, key, b);
    }
  }

  lemma {:induction false} InsertSorted<T>(s: seq<T>, x: T, key: T -> int)
    requires SortedBy(s, key)
    ensures SortedBy(Insert(s, x, key), key)
  {
    if s != [] && key(s[|s| - 1]) > key(x) {
      var init, last := s[..|s| - 1], s[|s| - 1];
      InsertSorted(init, x, key);
      InsertAtMost(init, x, key, key(last));
    }
  }

  lemma {:induction false} InsertPermutes<T>(s: seq<T>, x: T, key: T -> int)
    ensures multiset(Insert(s, x, key)) == multiset(s) + multiset{x}
  {
    if s != [] && key(s[|s| - 1]) > key(x) {
      var init, last := s[..|s| - 1], s[|s| - 1];
      InsertPermutes(init, x, key);
      assert s == init + [last];
    }
  }

  lemma {:induction false} WithKeyAppend<T>(a: seq<T>, b: seq<T>, key: T -> int, k: int)
    ensures WithKey(a + b, key, k) == WithKey(a, key, k) + WithKey(b, key, k)
    decreases |b|
  {
    if b == [] {
      assert a + b == a;
    } else {
      var init := b[..|b| - 1];
      assert (a + b)[..|a + b| - 1] == a + init;
      WithKeyAppend(a, init, key, k);
    }
  }

  /** At most one of two elements with different keys carries the key `k`, so they commute. */
  lemma WithKeySwap<T>(x: T, y: T, key: T -> int, k: int)
    requires key(x) != key(y)
    ensures WithKey([x], key, k) + WithKey([y], key, k) == WithKey([y], key, k) + WithKey([x], key, k)
  {
    assert [x][..0] == [] && [y][..0] == [];
  }

  lemma {:induction false} InsertStable<T>(s: seq<T>, x: T, key: T -> int, k: int)
    ensures WithKey(Insert(s, x, key), key, k) == WithKey(s + [x], key, k)
  {
    if s != [] && key(s[|s| - 1]) > key(x) {
      var init, last := s[..|s| - 1], s[|s| - 1];
      assert s == init + [last];
      calc {
        WithKey(Insert(s, x, key), key, k);
        { WithKeyAppend(Insert(init, x, key), [last], key, k); }
        WithKey(Insert(init, x, key), key, k) + WithKey([last], key, k);
        { InsertStable(init, x, key, k); WithKeyAppend(init, [x], key, k); }
        WithKey(init, key, k) + (WithKey([x], key, k) + WithKey([last], key, k));
        { WithKeySwap(x, last, key, k); }
        WithKey(init, key, k) + (WithKey([last], key, k) + WithKey([x], key, k));
        { WithKeyAppend(init, [last], key, k); }
        WithKey(s, key, k) + WithKey([x], key, k);
        { WithKeyAppend(s, [x], key, k); }
        WithKey(s + [x], key, k);
      }
    }
  }


  /**
   * The sort is stable: for every key, the elements carrying it come out in the
   * order they went in.
   */
  lemma {:induction false} SortByStable<T>(s: seq<T>, key: T -> int, k: int)
    ensures WithKey(SortBy(s, key), key, k) == WithKey(s, key, k)
  {
    if s != [] {
      var init, last := s[..|s| - 1], s[|s| - 1];
      SortByStable(init, key, k);
      InsertStable(SortBy(init, key), last, key, k);
      WithKeyAppend(SortBy(init, key), [last], key, k);
      WithKeyAppend(init, [last], key, k);
      assert s == init + [last];
    }
  }

  /** Sorting a sequence that is already in order changes nothing. */
  lemma {:induction false} SortBySorted<T>(s: seq<T>, key: T -> int)
    requires SortedBy(s, key)
    ensures SortBy(s, key) == s
  {
    if s != [] {
      var init := s[..|s| - 1];
      assert SortedBy(init, key);
      SortBySorted(init, key);
    }
  }

  function Id(x: int): int {
    x
  }

  /** How many elements of `s` are below `v`. */
  function CountBelow(s: seq<int>, v: int): (n: nat)
    ensures n <= |s|
  {
    if s == [] then 0 else CountBelow(s[..|s| - 1], v) + (if s[|s| - 1] < v then 1 else 0)
  }

  /** How many elements of `s` are above `v`. */
  function CountAbove(s: seq<int>, v: int): (n: nat)
    ensures n <= |s|
  {
    if s == [] then 0 else CountAbove(s[..|s| - 1], v) + (if s[|s| - 1] > v then 1 else 0)
  }

  lemma {:induction false} CountsAppend(a: seq<int>, b: seq<int>, v: int)
    ensures CountBelow(a + b, v) == CountBelow(a, v) + CountBelow(b, v)
    ensures CountAbove(a + b, v) == CountAbove(a, v) + CountAbove(b, v)
    decreases |b|
  {
    if b == [] {
      assert a + b == a;
    } else {
      assert (a + b)[..|a + b| - 1] == a + b[..|b| - 1];
      CountsAppend(a, b[..|b| - 1], v);
    }
  }

  lemma {:induction false} InsertCounts(s: seq<int>, x: int, v: int)
    ensures CountBelow(Insert(s, x, Id), v) == CountBelow(s + [x], v)
    ensures CountAbove(Insert(s, x, Id), v) == CountAbove(s + [x], v)
  {
    if s != [] && s[|s| - 1] > x {
      var init, last := s[..|s| - 1], s[|s| - 1];
      assert s == init + [last];
      assert Insert(s, x, Id) == Insert(init, x, Id) + [last];
      InsertCounts(init, x, v);
      CountsAppend(Insert(init, x, Id), [last], v);
      CountsAppend(init, [x], v);
      CountsAppend(s, [x], v);
      CountsAppend(init, [last], v);
    }
  }

  /** The sort of a non-empty sequence inserts its last element into the sort of the rest. */
  lemma SortByLast<T>(s: seq<T>, key: T -> int)
    requires s != []
    ensures SortBy(s, key) == Insert(SortBy(s[..|s| - 1], key), s[|s| - 1], key)
  {
  }

  /** Sorting keeps how many elements lie below and above any value. */
  lemma {:induction false} SortKeepsCounts(s: seq<int>, v: int)
    ensures CountBelow(SortBy(s, Id), v) == CountBelow(s, v)
    ensures CountAbove(SortBy(s, Id), v) == CountAbove(s, v)
  {
    if s != [] {
      var init, last := s[..|s| - 1], s[|s| - 1];
      var sorted := SortBy(init, Id);
      SortByLast(s, Id);
      SortKeepsCounts(init, v);
      InsertCounts(sorted, last, v);
      CountsAppend(sorted, [last], v);
      CountsAppend(init, [last], v);
      assert s == init + [last];
    }
  }

  /** In a sorted sequence, fewer than `k + 1` elements lie below the `k`-th. */
  lemma {:induction false} SortedBelow(r: seq<int>, k: nat, v: int)
    requires SortedBy(r, Id)
    requires forall j :: k <= j < |r| ==> r[j] >= v
    ensures CountBelow(r, v) <= k
  {
    if |r| > k {
      var init := r[..|r| - 1];
      assert SortedBy(init, Id);
      SortedBelow(init, k, v);
    }
  }

  /** In a sorted sequence, when the first `n` elements are at most `v`, at most `|r| - n` lie above it. */
  lemma {:induction false} SortedAbove(r: seq<int>, n: nat, v: int)
    requires SortedBy(r, Id)
    requires n <= |r|
    requires forall j :: 0 <= j < n ==> r[j] <= v
    ensures CountAbove(r, v) <= |r| - n
  {
    if r != [] {
      var init := r[..|r| - 1];
      assert SortedBy(init, Id);
      SortedAbove(init, if n == |r| then n - 1 else n, v);
    }
  }

  /** `sorted(ts)[len(ts) // 2]`: the upper median, one of the values. */
  function Median(ts: seq<int>): (m: int)
    requires |ts| > 0
    ensures m in ts
  {
    var r := SortBy(ts, Id);
    assert r[|ts| / 2] in multiset(r);
    r[|ts| / 2]
  }

  lemma SortedAround(r: seq<int>, h: nat)
    requires SortedBy(r, Id) && h < |r|
    ensures forall j :: h <= j < |r| ==> r[j] >= r[h]
    ensures forall j :: 0 <= j <= h ==> r[j] <= r[h]
  {
    forall j | 0 <= j < |r|
      ensures h <= j ==> r[j] >= r[h]
      ensures j <= h ==> r[j] <= r[h]
    {
      assert h < j ==> Id(r[h]) <= Id(r[j]);
      assert j < h ==> Id(r[j]) <= Id(r[h]);
    }
  }

  /** At most half of the values lie below the median. */
  lemma MedianBelow(ts: seq<int>)
    requires |ts| > 0
    ensures CountBelow(ts, Median(ts)) <= |ts| / 2
  {
    var r := SortBy(ts, Id);
    var h := |ts| / 2;
    var m := r[h];
    assert Median(ts) == m;
    SortKeepsCounts(ts, m);
    SortedAround(r, h);
    SortedBelow(r, h, m);
  }

  /** At most half of the values lie above the median. */
  lemma MedianAbove(ts: seq<int>)
    requires |ts| > 0
    ensures CountAbove(ts, Median(ts)) <= |ts| - 1 - |ts| / 2
  {
    var r := SortBy(ts, Id);
    var h := |ts| / 2;
    var m := r[h];
    assert Median(ts) == m;
    SortKeepsCounts(ts, m);
    SortedAround(r, h);
    SortedAbove(r, h + 1, m);
  }

  /** The median lies between the smallest and the largest value. */
  lemma MedianBetween(ts: seq<int>, i: nat, j: nat)
    requires 0 <= i < |ts| && 0 <= j < |ts|
    requires forall k :: 0 <= k < |ts| ==> ts[i] <= ts[k] <= ts[j]
    ensures ts[i] <= Median(ts) <= ts[j]
  {
  }
}
