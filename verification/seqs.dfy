/** The array idioms the pages use: `Array.prototype.filter`, which keeps an
    order-preserving subsequence, and `[...new Set(xs)]`, which keeps the
    distinct values in order of first appearance. */
module Seqs {

  /** `a` can be obtained from `b` by deleting elements, without reordering. */
  ghost predicate IsSubsequence<T>(a: seq<T>, b: seq<T>)
    decreases |b|
  {
    |a| == 0 || (|b| > 0 && ((a[0] == b[0] && IsSubsequence(a[1..], b[1..])) || IsSubsequence(a, b[1..])))
  }

  /** Array.prototype.filter. */
  function Filter<T(==)>(xs: seq<T>, p: T -> bool): (r: seq<T>)
    ensures |r| <= |xs|
    ensures forall i :: 0 <= i < |r| ==> r[i] in xs && p(r[i])
    ensures forall i :: 0 <= i < |xs| && p(xs[i]) ==> xs[i] in r
  {
    if |xs| == 0 then []
    else (if p(xs[0]) then [xs[0]] else []) + Filter(xs[1..], p)
  }

  /** What filter keeps is an order-preserving subsequence of its input. */
  lemma {:induction false} FilterIsSubsequence<T>(xs: seq<T>, p: T -> bool)
    ensures IsSubsequence(Filter(xs, p), xs)
  {
    if |xs| > 0 {
      var r := Filter(xs, p);
      var rest := Filter(xs[1..], p);
      FilterIsSubsequence(xs[1..], p);
      if p(xs[0]) {
        assert r[0] == xs[0] && r[1..] == rest;
      } else {
        assert r == rest;
      }
    }
  }

  /** A filter whose test every element passes returns its whole input. */
  lemma {:induction false} FilterKeepsAll<T>(xs: seq<T>, p: T -> bool)
    requires forall i :: 0 <= i < |xs| ==> p(xs[i])
    ensures Filter(xs, p) == xs
  {
    if |xs| > 0 {
      assert p(xs[0]);
      FilterKeepsAll(xs[1..], p);
    }
  }

  /** Filter keeps every passing value as many times as the input holds it,
      and no failing value at all. */
  lemma {:induction false} FilterMultiset<T>(xs: seq<T>, p: T -> bool)
    ensures forall x :: multiset(Filter(xs, p))[x] == if p(x) then multiset(xs)[x] else 0
  {
    if |xs| > 0 {
      FilterMultiset(xs[1..], p);
      assert xs == [xs[0]] + xs[1..];
      var head := if p(xs[0]) then [xs[0]] else [];
      assert multiset(Filter(xs, p)) == multiset(head) + multiset(Filter(xs[1..], p));
    }
  }

  /** Filtering a concatenation filters each part. */
  lemma {:induction false} FilterAppend<T>(xs: seq<T>, ys: seq<T>, p: T -> bool)
    ensures Filter(xs + ys, p) == Filter(xs, p) + Filter(ys, p)
  {
    if |xs| == 0 {
      assert xs + ys == ys;
    } else {
      assert (xs + ys)[1..] == xs[1..] + ys;
      FilterAppend(xs[1..], ys, p);
    }
  }

  predicate NoDuplicates<T(==)>(xs: seq<T>)
  {
    forall i, j :: 0 <= i < j < |xs| ==> xs[i] != xs[j]
  }

  /** `[...new Set(xs)]`: each distinct value once, where it first appears. */
  function Distinct<T(==)>(xs: seq<T>): (r: seq<T>)
    ensures NoDuplicates(r)
    ensures forall i :: 0 <= i < |r| ==> r[i] in xs
    ensures forall i :: 0 <= i < |xs| ==> xs[i] in r
  {
    if |xs| == 0 then []
    else
      var pre := xs[..|xs| - 1];
      var d := Distinct(pre);
      var last := xs[|xs| - 1];
      assert forall i :: 0 <= i < |xs| - 1 ==> xs[i] == pre[i];
      if last in d then d else d + [last]
  }

  /** The position of the first occurrence of `x` in `xs`. */
  function FirstIndex<T(==)>(xs: seq<T>, x: T): (i: nat)
    requires x in xs
    ensures i < |xs| && xs[i] == x
    ensures forall j :: 0 <= j < i ==> xs[j] != x
  {
    if xs[0] == x then 0 else 1 + FirstIndex(xs[1..], x)
  }

  /** Appending an element does not move the first occurrence of a value already present. */
  lemma FirstIndexAppend<T>(xs: seq<T>, y: T, x: T)
    requires x in xs
    ensures FirstIndex(xs + [y], x) == FirstIndex(xs, x)
  {
    var i := FirstIndex(xs, x);
    var k := FirstIndex(xs + [y], x);
    assert (xs + [y])[i] == x;
    assert k <= i;
    assert xs[k] == x;
  }

  /** Appending a new value puts its first occurrence at the end. */
  lemma FirstIndexAppendNew<T>(xs: seq<T>, y: T)
    requires y !in xs
    ensures FirstIndex(xs + [y], y) == |xs|
  {
    var k := FirstIndex(xs + [y], y);
    assert forall j :: 0 <= j < |xs| ==> (xs + [y])[j] == xs[j];
  }

  /** Distinct lists values in order of their first appearance in the input. */
  lemma {:induction false} DistinctFirstAppearanceOrder<T>(xs: seq<T>)
    ensures forall i, j :: 0 <= i < j < |Distinct(xs)| ==>
              FirstIndex(xs, Distinct(xs)[i]) < FirstIndex(xs, Distinct(xs)[j])
  {
    if |xs| > 0 {
      var pre := xs[..|xs| - 1];
      var last := xs[|xs| - 1];
      var d := Distinct(pre);
      assert xs == pre + [last];
      DistinctFirstAppearanceOrder(pre);
      forall e | e in d
        ensures FirstIndex(xs, e) == FirstIndex(pre, e)
      {
        FirstIndexAppend(pre, last, e);
      }
      if last !in d {
        FirstIndexAppendNew(pre, last);
        assert Distinct(xs) == d + [last];
      }
    }
  }
}
