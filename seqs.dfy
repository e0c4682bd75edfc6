/**
 * Sequence helpers shared by the printers: the ascending list of the indices
 * in a range that satisfy a test (what a `for` loop that pushes matching
 * indices builds), `Array.prototype.indexOf`, and counting.
 */
module Seqs {

  /** Strictly increasing, hence duplicate-free and ascending. */
  predicate Increasing(s: seq<nat>) {
    forall i, j | 0 <= i < j < |s| :: s[i] < s[j]
  }

  /**
   * The indices i in [lo, hi) with keep(i), in ascending order: what a loop
   * from lo to hi that pushes each kept index produces.
   */
  function Indices(lo: nat, hi: nat, keep: nat -> bool): (r: seq<nat>)
    decreases hi
    ensures |r| <= if lo <= hi then hi - lo else 0
  {
    if hi <= lo then []
    else Indices(lo, hi - 1, keep) + (if keep(hi - 1) then [hi - 1] else [])
  }

  lemma IndicesStep(lo: nat, hi: nat, keep: nat -> bool)
    requires lo < hi
    ensures Indices(lo, hi, keep) == Indices(lo, hi - 1, keep) + (if keep(hi - 1) then [hi - 1] else [])
  {
  }

  /** `Indices` holds exactly the kept indices of the range, in ascending order. */
  lemma {:induction false} IndicesSpec(lo: nat, hi: nat, keep: nat -> bool)
    decreases hi
    ensures forall x :: x in Indices(lo, hi, keep) <==> lo <= x < hi && keep(x)
    ensures Increasing(Indices(lo, hi, keep))
  {
    if hi > lo {
      IndicesSpec(lo, hi - 1, keep);
      var prefix := Indices(lo, hi - 1, keep);
      var r := Indices(lo, hi, keep);
      assert r == prefix + (if keep(hi - 1) then [hi - 1] else []);
      forall i, j | 0 <= i < j < |r| ensures r[i] < r[j] {
        if j >= |prefix| {
          assert r[i] == prefix[i] && prefix[i] in prefix;
        }
      }
    }
  }

  /** Two ascending lists with the same members are the same list. */
  lemma {:induction false} IncreasingUnique(a: seq<nat>, b: seq<nat>)
    requires Increasing(a) && Increasing(b)
    requires forall x :: x in a <==> x in b
    ensures a == b
  {
    assert a != [] ==> a[0] in b;
    assert b != [] ==> b[0] in a;
    if a != [] && b != [] {
      assert a[0] in b && b[0] in a;
      assert a[0] == b[0];
      forall x ensures x in a[1..] <==> x in b[1..] {
        if x in a[1..] {
          assert x in b && x > a[0];
        }
        if x in b[1..] {
          assert x in a && x > b[0];
        }
      }
      IncreasingUnique(a[1..], b[1..]);
      assert a == [a[0]] + a[1..] && b == [b[0]] + b[1..];
    }
  }

  /** `Array.prototype.indexOf`: the first position holding x, or -1. */
  function IndexOf<T(==)>(s: seq<T>, x: T): (i: int)
    ensures -1 <= i < |s|
    ensures i >= 0 ==> s[i] == x && forall j | 0 <= j < i :: s[j] != x
    ensures i == -1 <==> x !in s
  {
    if s == [] then -1
    else if s[0] == x then 0
    else
      var k := IndexOf(s[1..], x);
      assert x in s[1..] ==> x in s;
      if k == -1 then -1 else k + 1
  }

  /** `lastIndexOf`: the last position holding `x`, or -1. */
  function LastIndexOf<T(==)>(s: seq<T>, x: T): (i: int)
    ensures -1 <= i < |s|
    ensures i >= 0 ==> s[i] == x && forall j | i < j < |s| :: s[j] != x
    ensures i == -1 <==> x !in s
  {
    if s == [] then -1
    else if s[|s| - 1] == x then |s| - 1
    else
      var k := LastIndexOf(s[..|s| - 1], x);
      assert s == s[..|s| - 1] + [s[|s| - 1]];
      k
  }

  /** A position holding `x` with no `x` before it is the first one. */
  lemma IndexOfAt<T>(s: seq<T>, x: T, q: nat)
    requires q < |s| && s[q] == x && forall j | 0 <= j < q :: s[j] != x
    ensures IndexOf(s, x) == q
  {
    assert x in s;
  }

  /** A position holding `x` with no `x` after it is the last one. */
  lemma LastIndexOfAt<T>(s: seq<T>, x: T, q: nat)
    requires q < |s| && s[q] == x && forall j | q < j < |s| :: s[j] != x
    ensures LastIndexOf(s, x) == q
  {
    assert x in s;
  }

  /** The first kept index is the least one in the range. */
  lemma IndicesFirst(lo: nat, hi: nat, keep: nat -> bool)
    requires Indices(lo, hi, keep) != []
    ensures var t := Indices(lo, hi, keep)[0];
            && lo <= t < hi && keep(t)
            && forall j | lo <= j < t :: !keep(j)
  {
    var e := Indices(lo, hi, keep);
    IndicesSpec(lo, hi, keep);
    assert e[0] in e;
  }

  /** In an ascending list, the position of a member is determined by it. */
  lemma {:induction false} IndexOfIncreasing(s: seq<nat>, k: nat)
    requires Increasing(s) && k < |s|
    ensures IndexOf(s, s[k]) == k
  {
  }

  /** The number of positions holding v. */
  function Count(s: seq<int>, v: int): (c: nat)
    ensures c <= |s|
  {
    if s == [] then 0 else Count(s[..|s| - 1], v) + (if s[|s| - 1] == v then 1 else 0)
  }

  /** Writing one cell changes the count of `v` by what left and what entered. */
  lemma {:induction false} CountUpdate(s: seq<int>, k: nat, w: int, v: int)
    requires k < |s|
    ensures Count(s[k := w], v) + (if s[k] == v then 1 else 0) == Count(s, v) + (if w == v then 1 else 0)
  {
    if k < |s| - 1 {
      assert s[k := w][..|s| - 1] == s[..|s| - 1][k := w];
      CountUpdate(s[..|s| - 1], k, w, v);
    } else {
      assert s[k := w][..|s| - 1] == s[..|s| - 1];
    }
  }

  /** `new Array(n).fill(v)` */
  function Fill(n: nat, v: int): (r: seq<int>)
    ensures |r| == n && forall i | 0 <= i < n :: r[i] == v
  {
    seq(n, _ => v)
  }

  lemma {:induction false} CountFill(n: nat, v: int, w: int)
    ensures Count(Fill(n, v), w) == if v == w then n else 0
  {
    if n > 0 {
      assert Fill(n, v)[..n - 1] == Fill(n - 1, v);
      CountFill(n - 1, v, w);
    }
  }

  /** Splitting the range splits the list. */
  lemma {:induction false} IndicesSplit(lo: nat, mid: nat, hi: nat, keep: nat -> bool)
    requires lo <= mid <= hi
    ensures Indices(lo, hi, keep) == Indices(lo, mid, keep) + Indices(mid, hi, keep)
    decreases hi
  {
    if hi > mid {
      IndicesSplit(lo, mid, hi - 1, keep);
    }
  }

  /** Tests that agree on the range give the same list. */
  lemma {:induction false} IndicesCongruent(lo: nat, hi: nat, k1: nat -> bool, k2: nat -> bool)
    requires forall x | lo <= x < hi :: k1(x) == k2(x)
    ensures Indices(lo, hi, k1) == Indices(lo, hi, k2)
    decreases hi
  {
    if hi > lo {
      IndicesCongruent(lo, hi - 1, k1, k2);
    }
  }

  /** A range whose indices are all kept is listed in full. */
  lemma {:induction false} IndicesFull(lo: nat, hi: nat, keep: nat -> bool)
    requires lo <= hi
    requires forall x | lo <= x < hi :: keep(x)
    ensures |Indices(lo, hi, keep)| == hi - lo
    decreases hi
  {
    if hi > lo {
      IndicesFull(lo, hi - 1, keep);
    }
  }

  function Sum(s: seq<nat>): nat {
    if s == [] then 0 else Sum(s[..|s| - 1]) + s[|s| - 1]
  }

  /** Adding one to a cell adds one to the sum. */
  lemma {:induction false} SumIncrement(s: seq<nat>, k: nat)
    requires k < |s|
    ensures Sum(s[k := s[k] + 1]) == Sum(s) + 1
  {
    if k < |s| - 1 {
      assert s[k := s[k] + 1][..|s| - 1] == s[..|s| - 1][k := s[k] + 1];
      SumIncrement(s[..|s| - 1], k);
    } else {
      assert s[k := s[k] + 1][..|s| - 1] == s[..|s| - 1];
    }
  }

  /** A test and its negation split a range between them. */
  lemma {:induction false} IndicesComplement(lo: nat, hi: nat, k1: nat -> bool, k2: nat -> bool)
    requires lo <= hi
    requires forall x | lo <= x < hi :: k2(x) == !k1(x)
    ensures |Indices(lo, hi, k1)| + |Indices(lo, hi, k2)| == hi - lo
    decreases hi
  {
    if hi > lo {
      IndicesComplement(lo, hi - 1, k1, k2);
    }
  }

  /** A prefix holds no more occurrences than the whole. */
  lemma {:induction false} CountPrefix(s: seq<int>, i: nat, v: int)
    requires i <= |s|
    ensures Count(s[..i], v) <= Count(s, v)
    decreases |s|
  {
    if i < |s| {
      assert s[..|s| - 1][..i] == s[..i];
      CountPrefix(s[..|s| - 1], i, v);
    } else {
      assert s[..i] == s;
    }
  }

  /** Counting one more element of a prefix. */
  lemma CountSnoc(s: seq<int>, i: nat, v: int)
    requires i < |s|
    ensures Count(s[..i + 1], v) == Count(s[..i], v) + (if s[i] == v then 1 else 0)
  {
    assert s[..i + 1][..i] == s[..i];
  }

  lemma {:induction false} SumZero(s: seq<nat>)
    requires forall k | 0 <= k < |s| :: s[k] == 0
    ensures Sum(s) == 0
  {
    if s != [] {
      SumZero(s[..|s| - 1]);
    }
  }
}
