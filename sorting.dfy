/**
 * Insertion sort under a strict total order, standing in for the JavaScript
 * engine's stable `Array.prototype.sort`. Every call site in the printers sorts
 * distinct indices that arrive in ascending order, so the stable sort by a key
 * is the sort by the total order "key, then index", which is what the callers
 * pass in.
 */
module Sorting {

  ghost predicate StrictTotalOn<T(!new)>(lt: (T, T) -> bool, xs: set<T>) {
    && (forall a | a in xs :: !lt(a, a))
    && (forall a, b | a in xs && b in xs && a != b :: lt(a, b) || lt(b, a))
    && (forall a, b, c | a in xs && b in xs && c in xs && lt(a, b) && lt(b, c) :: lt(a, c))
  }

  ghost predicate SortedBy<T>(lt: (T, T) -> bool, s: seq<T>) {
    forall i, j | 0 <= i < j < |s| :: lt(s[i], s[j])
  }

  predicate Distinct<T(==)>(s: seq<T>) {
    forall i, j | 0 <= i < j < |s| :: s[i] != s[j]
  }

  function Insert<T>(x: T, s: seq<T>, lt: (T, T) -> bool): seq<T> {
    if s == [] then [x]
    else if lt(s[0], x) then [s[0]] + Insert(x, s[1..], lt)
    else [x] + s
  }

  function Sort<T>(s: seq<T>, lt: (T, T) -> bool): seq<T> {
    if s == [] then [] else Insert(s[0], Sort(s[1..], lt), lt)
  }

  lemma {:induction false} InsertPermutes<T>(x: T, s: seq<T>, lt: (T, T) -> bool)
    ensures multiset(Insert(x, s, lt)) == multiset(s) + multiset{x}
  {
    if s != [] && lt(s[0], x) {
      InsertPermutes(x, s[1..], lt);
      assert s == [s[0]] + s[1..];
    }
  }

  lemma {:induction false} InsertSorted<T(!new)>(x: T, s: seq<T>, lt: (T, T) -> bool)
    requires SortedBy(lt, s) && x !in s
    requires StrictTotalOn(lt, set y | y in s + [x])
    ensures SortedBy(lt, Insert(x, s, lt))
  {
    if s == [] {
    } else if lt(s[0], x) {
      var t := s[1..];
      assert SortedBy(lt, t);
      assert (set y | y in t + [x]) <= (set y | y in s + [x]);
      InsertSorted(x, t, lt);
      InsertPermutes(x, t, lt);
      var r := Insert(x, t, lt);
      forall k | 0 <= k < |r| ensures lt(s[0], r[k]) {
        assert r[k] in multiset(r);
        assert r[k] == x || r[k] in t;
      }
    } else {
      assert x != s[0] && s[0] in s + [x] && x in s + [x];
      forall k | 0 <= k < |s| ensures lt(x, s[k]) {
        assert s[k] in s + [x];
      }
    }
  }

  /** The sort keeps every element, as often as it occurs. */
  lemma {:induction false} SortPermutes<T>(s: seq<T>, lt: (T, T) -> bool)
    ensures multiset(Sort(s, lt)) == multiset(s)
    ensures |Sort(s, lt)| == |s|
  {
    if s != [] {
      SortPermutes(s[1..], lt);
      InsertPermutes(s[0], Sort(s[1..], lt), lt);
      assert s == [s[0]] + s[1..];
    }
    assert |multiset(Sort(s, lt))| == |multiset(s)|;
  }

  /** The sort returns the input in strictly increasing order. */
  lemma {:induction false} SortCorrect<T(!new)>(s: seq<T>, lt: (T, T) -> bool)
    requires Distinct(s) && StrictTotalOn(lt, set y | y in s)
    ensures SortedBy(lt, Sort(s, lt))
    ensures multiset(Sort(s, lt)) == multiset(s)
    ensures |Sort(s, lt)| == |s|
  {
    SortPermutes(s, lt);
    if s != [] {
      var t := s[1..];
      assert s == [s[0]] + t;
      assert (set y | y in t) <= (set y | y in s);
      assert Distinct(t);
      SortCorrect(t, lt);
      var r := Sort(t, lt);
      assert s[0] !in multiset(r);
      assert (set y | y in r + [s[0]]) == (set y | y in s) by {
        forall y ensures y in r + [s[0]] <==> y in s {
          assert y in r <==> y in multiset(r);
          assert y in t <==> y in multiset(t);
        }
      }
      InsertSorted(s[0], r, lt);
    }
  }
}
