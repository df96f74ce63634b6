/** Column statistics (`Series.min`, `Series.max`, `Series.mean`) and the
    min-max unit scaling `(x - min) / (max - min)` the scores are built from. */
module Stats {

  /** `Series.min()` of a non-empty column. */
  function Min(xs: seq<real>): (r: real)
    requires |xs| > 0
    ensures r in xs
    ensures forall i :: 0 <= i < |xs| ==> r <= xs[i]
  {
    if |xs| == 1 then xs[0]
    else
      var m := Min(xs[1..]);
      assert forall i :: 1 <= i < |xs| ==> xs[i] == xs[1..][i - 1];
      if xs[0] <= m then xs[0] else m
  }

  /** `Series.max()` of a non-empty column. */
  function Max(xs: seq<real>): (r: real)
    requires |xs| > 0
    ensures r in xs
    ensures forall i :: 0 <= i < |xs| ==> xs[i] <= r
  {
    if |xs| == 1 then xs[0]
    else
      var m := Max(xs[1..]);
      assert forall i :: 1 <= i < |xs| ==> xs[i] == xs[1..][i - 1];
      if xs[0] >= m then xs[0] else m
  }

  function Sum(xs: seq<real>): real
  {
    if xs == [] then 0.0 else xs[0] + Sum(xs[1..])
  }

  /** A sum of values at least lo is at least |xs| times lo. */
  lemma {:induction false} SumAtLeast(xs: seq<real>, lo: real)
    requires forall i :: 0 <= i < |xs| ==> lo <= xs[i]
    ensures |xs| as real * lo <= Sum(xs)
  {
    if xs != [] {
      var n := (|xs| - 1) as real;
      assert forall i :: 0 <= i < |xs| - 1 ==> xs[1..][i] == xs[i + 1];
      SumAtLeast(xs[1..], lo);
      assert |xs| as real * lo == n * lo + lo;
    }
  }

  /** A sum of values at most hi is at most |xs| times hi. */
  lemma {:induction false} SumAtMost(xs: seq<real>, hi: real)
    requires forall i :: 0 <= i < |xs| ==> xs[i] <= hi
    ensures Sum(xs) <= |xs| as real * hi
  {
    if xs != [] {
      var n := (|xs| - 1) as real;
      assert forall i :: 0 <= i < |xs| - 1 ==> xs[1..][i] == xs[i + 1];
      SumAtMost(xs[1..], hi);
      assert |xs| as real * hi == n * hi + hi;
    }
  }

  /** `Series.mean()` of a non-empty column. */
  function Mean(xs: seq<real>): real
    requires |xs| > 0
  {
    Sum(xs) / (|xs| as real)
  }

  /** The mean lies between the column's least and greatest values. */
  lemma MeanBounds(xs: seq<real>)
    requires |xs| > 0
    ensures Min(xs) <= Mean(xs) <= Max(xs)
  {
    MeanAtLeast(xs, Min(xs));
    MeanAtMost(xs, Max(xs));
  }

  /** A lower bound of every value bounds the mean. */
  lemma MeanAtLeast(xs: seq<real>, lo: real)
    requires |xs| > 0 && forall i :: 0 <= i < |xs| ==> lo <= xs[i]
    ensures lo <= Mean(xs)
  {
    SumAtLeast(xs, lo);
    var q, n := Mean(xs), |xs| as real;
    assert q * n == Sum(xs);
    MulCancel(lo, q, n);
  }

  /** An upper bound of every value bounds the mean. */
  lemma MeanAtMost(xs: seq<real>, hi: real)
    requires |xs| > 0 && forall i :: 0 <= i < |xs| ==> xs[i] <= hi
    ensures Mean(xs) <= hi
  {
    SumAtMost(xs, hi);
    var q, n := Mean(xs), |xs| as real;
    assert q * n == Sum(xs);
    MulCancel(q, hi, n);
  }

  lemma QuotientAtLeast(s: real, n: real, lo: real)
    requires n > 0.0 && n * lo <= s
    ensures lo <= s / n
  {
    var q := s / n;
    assert q * n == s;
    MulCancel(lo, q, n);
  }

  lemma QuotientAtMost(s: real, n: real, hi: real)
    requires n > 0.0 && s <= n * hi
    ensures s / n <= hi
  {
    var q := s / n;
    assert q * n == s;
    MulCancel(q, hi, n);
  }

  lemma QuotientBetween(s: real, n: real, lo: real, hi: real)
    requires n > 0.0 && n * lo <= s <= n * hi
    ensures lo <= s / n <= hi
  {
    QuotientAtLeast(s, n, lo);
    QuotientAtMost(s, n, hi);
  }

  lemma MulNonneg(a: real, b: real)
    requires a >= 0.0 && b >= 0.0
    ensures a * b >= 0.0
  {
  }

  lemma MulMonotone(a: real, b: real, c: real)
    requires a <= b && c >= 0.0
    ensures a * c <= b * c
  {
    MulNonneg(b - a, c);
    assert (b - a) * c == b * c - a * c;
  }

  /** Dividing by a larger positive number gives a smaller quotient. */
  lemma DivAntitone(m: real, a: real, b: real)
    requires m > 0.0 && 0.0 < a <= b
    ensures 0.0 < m / b <= m / a
  {
    var qa, qb := m / a, m / b;
    assert qa * a == m && qb * b == m;
    MulMonotone(a, b, qb);
    MulCancel(qb, qa, a);
  }

  lemma MulCancel(x: real, y: real, a: real)
    requires a > 0.0 && x * a <= y * a
    ensures x <= y
  {
  }

  /** A column whose min-max scaling is defined: not empty and not constant. */
  predicate Spread(xs: seq<real>)
  {
    |xs| > 0 && Min(xs) < Max(xs)
  }

  /** The min-max position of x between lo and hi. */
  function Unit(x: real, lo: real, hi: real): real
    requires lo < hi
  {
    (x - lo) / (hi - lo)
  }

  /** A value inside [lo, hi] is placed inside [0, 1]. */
  lemma UnitBounds(x: real, lo: real, hi: real)
    requires lo < hi && lo <= x <= hi
    ensures 0.0 <= Unit(x, lo, hi) <= 1.0
  {
    QuotientBetween(x - lo, hi - lo, 0.0, 1.0);
  }

  /** The ends of the range go to 0 and 1. */
  lemma UnitEnds(lo: real, hi: real)
    requires lo < hi
    ensures Unit(lo, lo, hi) == 0.0 && Unit(hi, lo, hi) == 1.0
  {
    assert (hi - lo) / (hi - lo) == 1.0;
  }

  /** Min-max scaling keeps and reflects the order of values. */
  lemma UnitMonotone(x: real, y: real, lo: real, hi: real)
    requires lo < hi
    ensures x <= y <==> Unit(x, lo, hi) <= Unit(y, lo, hi)
    ensures x < y <==> Unit(x, lo, hi) < Unit(y, lo, hi)
  {
    var d := hi - lo;
    assert Unit(y, lo, hi) - Unit(x, lo, hi) == (y - x) / d;
    assert ((y - x) / d) * d == y - x;
  }
}
