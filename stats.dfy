/**
 * Sums, means and extremes over lists of numbers, as the engine's private `mean`
 * (an empty list has mean 0) and `Math.max(...values)` compute them, over exact reals.
 */
module Stats {

  function Sum(s: seq<real>): real
  {
    if |s| == 0 then 0.0 else Sum(s[..|s| - 1]) + s[|s| - 1]
  }

  /** `mean(values)`: 0 for an empty list, otherwise the sum over the length. */
  function Mean(s: seq<real>): real
  {
    if |s| == 0 then 0.0 else Sum(s) / |s| as real
  }

  lemma SumSnoc(s: seq<real>, x: real)
    ensures Sum(s + [x]) == Sum(s) + x
  {
    assert (s + [x])[..|s|] == s;
  }

  /** A sum of `n` values in `[lo, hi]` lies in `[n*lo, n*hi]`. */
  lemma {:induction false} SumBounds(s: seq<real>, lo: real, hi: real)
    requires forall i :: 0 <= i < |s| ==> lo <= s[i] <= hi
    ensures |s| as real * lo <= Sum(s) <= |s| as real * hi
  {
    if |s| > 0 {
      var p := s[..|s| - 1];
      SumBounds(p, lo, hi);
      assert |s| as real * lo == |p| as real * lo + lo;
      assert |s| as real * hi == |p| as real * hi + hi;
    }
  }

  /** The mean of a non-empty list of values in `[lo, hi]` lies in `[lo, hi]`. */
  lemma MeanBounds(s: seq<real>, lo: real, hi: real)
    requires |s| > 0
    requires forall i :: 0 <= i < |s| ==> lo <= s[i] <= hi
    ensures lo <= Mean(s) <= hi
  {
    SumBounds(s, lo, hi);
    var n := |s| as real;
    DivideBounds(Sum(s), n, lo, hi);
  }

  lemma DivideBounds(t: real, n: real, lo: real, hi: real)
    requires n > 0.0 && n * lo <= t <= n * hi
    ensures lo <= t / n <= hi
  {
    var m := t / n;
    assert m * n == t;
  }

  /** Dividing by the same positive number keeps the order. */
  lemma DivideMonotone(a: real, b: real, n: real)
    requires a <= b && n > 0.0
    ensures a / n <= b / n
  {
    assert a / n * n == a && b / n * n == b;
  }

  /** A positive part of a whole is a fraction in (0, 1]. */
  lemma FractionOfWhole(a: real, n: real)
    requires 0.0 < a <= n
    ensures 0.0 < a / n <= 1.0
  {
    var m := a / n;
    assert m * n == a;
  }

  /** `Math.max(...values)` of a non-empty list. */
  function MaxOf(s: seq<real>): (m: real)
    requires |s| > 0
    ensures m in s
    ensures forall i :: 0 <= i < |s| ==> s[i] <= m
  {
    if |s| == 1 then s[0]
    else
      var p := MaxOf(s[..|s| - 1]);
      assert forall i :: 0 <= i < |s| - 1 ==> s[..|s| - 1][i] == s[i];
      if s[|s| - 1] > p then s[|s| - 1] else p
  }

  /** The smallest element of a non-empty list, kept from the left on ties. */
  function MinOf(s: seq<real>): (m: real)
    requires |s| > 0
    ensures m in s
    ensures forall i :: 0 <= i < |s| ==> m <= s[i]
  {
    if |s| == 1 then s[0]
    else
      var p := MinOf(s[..|s| - 1]);
      assert forall i :: 0 <= i < |s| - 1 ==> s[..|s| - 1][i] == s[i];
      if s[|s| - 1] < p then s[|s| - 1] else p
  }

  /** The mean of the pointwise differences is the difference of the means. */
  lemma {:induction false} SumOfDifferences(a: seq<real>, b: seq<real>)
    requires |a| == |b|
    ensures Sum(seq(|a|, i requires 0 <= i < |a| => a[i] - b[i])) == Sum(a) - Sum(b)
  {
    if |a| > 0 {
      var n := |a| - 1;
      var d := seq(|a|, i requires 0 <= i < |a| => a[i] - b[i]);
      SumOfDifferences(a[..n], b[..n]);
      assert d[..n] == seq(n, i requires 0 <= i < n => a[..n][i] - b[..n][i]);
    }
  }

  lemma MeanOfDifferences(a: seq<real>, b: seq<real>)
    requires |a| == |b|
    ensures Mean(seq(|a|, i requires 0 <= i < |a| => a[i] - b[i])) == Mean(a) - Mean(b)
  {
    SumOfDifferences(a, b);
    if |a| > 0 {
      var n := |a| as real;
      assert (Sum(a) - Sum(b)) / n == Sum(a) / n - Sum(b) / n;
    }
  }
}
