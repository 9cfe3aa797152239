/** `Array.prototype.filter` and the counting facts the dashboards rely on. */
module Seqs {

  /** `a` is obtained from `b` by deleting elements, keeping the order of the
      rest. */
  ghost predicate IsSubsequence<T>(a: seq<T>, b: seq<T>)
    decreases |b|
  {
    || |a| == 0
    || (|b| > 0 && ((a[0] == b[0] && IsSubsequence(a[1..], b[1..])) || IsSubsequence(a, b[1..])))
  }

  /** A subsequence of a subsequence is a subsequence. */
  lemma {:induction false} SubsequenceTrans<T>(a: seq<T>, b: seq<T>, c: seq<T>)
    requires IsSubsequence(a, b) && IsSubsequence(b, c)
    ensures IsSubsequence(a, c)
    decreases |c|
  {
    if |a| == 0 {
    } else if |c| > 0 && IsSubsequence(b, c[1..]) {
      SubsequenceTrans(a, b, c[1..]);
    } else {
      assert |b| > 0 && b[0] == c[0] && IsSubsequence(b[1..], c[1..]);
      if a[0] == b[0] && IsSubsequence(a[1..], b[1..]) {
        SubsequenceTrans(a[1..], b[1..], c[1..]);
      } else {
        SubsequenceTrans(a, b[1..], c[1..]);
      }
    }
  }

  /** `Array.prototype.indexOf` and `String.prototype.indexOf` for one
      element: the first position of `x` in `xs`, or -1. */
  function IndexIn<T(==)>(xs: seq<T>, x: T): (i: int)
    ensures -1 <= i < |xs|
    ensures i == -1 <==> x !in xs
    ensures 0 <= i ==> xs[i] == x && x !in xs[..i]
    decreases |xs|
  {
    if |xs| == 0 then -1
    else if xs[0] == x then 0
    else
      var j := IndexIn(xs[1..], x);
      if j == -1 then -1
      else
        assert xs[..j + 1] == [xs[0]] + xs[1..][..j];
        j + 1
  }

  /** The elements of `s` that satisfy `p`, in their original order. */
  function Filter<T>(s: seq<T>, p: T -> bool): (r: seq<T>)
    ensures |r| <= |s|
    ensures forall i :: 0 <= i < |r| ==> r[i] in s && p(r[i])
    ensures forall i :: 0 <= i < |s| ==> (s[i] in r <==> p(s[i]))
    ensures IsSubsequence(r, s)
    ensures forall i :: 0 <= i < |s| ==> multiset(r)[s[i]] == if p(s[i]) then multiset(s)[s[i]] else 0
    decreases |s|
  {
    if |s| == 0 then []
    else
      assert s == [s[0]] + s[1..];
      if p(s[0]) then [s[0]] + Filter(s[1..], p)
      else Filter(s[1..], p)
  }

  /** Filtering with a predicate every element satisfies changes nothing. */
  lemma {:induction false} FilterKeepsAll<T>(s: seq<T>, p: T -> bool)
    requires forall i :: 0 <= i < |s| ==> p(s[i])
    ensures Filter(s, p) == s
    decreases |s|
  {
    if |s| > 0 {
      FilterKeepsAll(s[1..], p);
    }
  }

  /** The filtered sequence is empty exactly when no element satisfies `p`. */
  lemma FilterEmptyIffNone<T>(s: seq<T>, p: T -> bool)
    ensures Filter(s, p) == [] <==> forall i :: 0 <= i < |s| ==> !p(s[i])
  {
    if Filter(s, p) == [] {
      forall i | 0 <= i < |s|
        ensures !p(s[i])
      {
        assert s[i] in s;
      }
    }
  }

  lemma {:induction false} FilterConcat<T>(a: seq<T>, b: seq<T>, p: T -> bool)
    ensures Filter(a + b, p) == Filter(a, p) + Filter(b, p)
    decreases |a|
  {
    if |a| > 0 {
      assert (a + b)[1..] == a[1..] + b;
      FilterConcat(a[1..], b, p);
    } else {
      assert a + b == b;
    }
  }

  /** An element is counted by exactly one of two complementary predicates. */
  lemma {:induction false} FilterComplementCount<T>(s: seq<T>, p: T -> bool, q: T -> bool)
    requires forall x :: q(x) == !p(x)
    ensures |Filter(s, p)| + |Filter(s, q)| == |s|
    decreases |s|
  {
    if |s| > 0 {
      FilterComplementCount(s[1..], p, q);
    }
  }

  /** Counting a disjoint union is adding the counts. */
  lemma {:induction false} FilterDisjointCount<T>(s: seq<T>, p: T -> bool, q: T -> bool, u: T -> bool)
    requires forall x :: u(x) == (p(x) || q(x))
    requires forall x :: !(p(x) && q(x))
    ensures |Filter(s, u)| == |Filter(s, p)| + |Filter(s, q)|
    decreases |s|
  {
    if |s| > 0 {
      FilterDisjointCount(s[1..], p, q, u);
    }
  }

  /** A stronger predicate keeps a subsequence of what a weaker one keeps. */
  lemma {:induction false} FilterMonotone<T>(s: seq<T>, p: T -> bool, q: T -> bool)
    requires forall x :: p(x) ==> q(x)
    ensures IsSubsequence(Filter(s, p), Filter(s, q))
    decreases |s|
  {
    if |s| > 0 {
      FilterMonotone(s[1..], p, q);
      var fp, fq := Filter(s[1..], p), Filter(s[1..], q);
      if p(s[0]) {
        assert Filter(s, p) == [s[0]] + fp && Filter(s, q) == [s[0]] + fq;
        assert ([s[0]] + fp)[1..] == fp && ([s[0]] + fq)[1..] == fq;
      } else if q(s[0]) {
        assert Filter(s, q)[1..] == fq;
      }
    }
  }

  /** When `p` holds exactly from position `k` on, filtering keeps the
      suffix that starts at `k`. */
  lemma {:induction false} FilterSuffix<T>(s: seq<T>, p: T -> bool, k: nat)
    requires k <= |s|
    requires forall i :: 0 <= i < |s| ==> (p(s[i]) <==> k <= i)
    ensures Filter(s, p) == s[k..]
    decreases |s|
  {
    if k == 0 {
      FilterKeepsAll(s, p);
    } else {
      assert !p(s[0]);
      forall i | 0 <= i < |s[1..]|
        ensures p(s[1..][i]) <==> k - 1 <= i
      {
        assert s[1..][i] == s[i + 1];
      }
      FilterSuffix(s[1..], p, k - 1);
    }
  }
}
