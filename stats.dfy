/**
 * Descriptive statistics over a slice of closing prices, in exact real
 * arithmetic: the sum, the arithmetic mean, the sum of squared deviations and
 * the sample variance (divisor n - 1, pandas' ddof = 1), and the sample
 * standard deviation tied to the variance through a square root supplied by
 * the caller.
 */
module Stats {

  /** Sum of the elements, folded from the left end. */
  function Sum(xs: seq<real>): real
  {
    if xs == [] then 0.0 else xs[0] + Sum(xs[1..])
  }

  /** Arithmetic mean of a non-empty slice. */
  function Mean(xs: seq<real>): real
    requires |xs| > 0
  {
    Sum(xs) / |xs| as real
  }

  /** Sum of the squares of the elements. */
  function SumOfSquares(xs: seq<real>): real
  {
    if xs == [] then 0.0 else xs[0] * xs[0] + SumOfSquares(xs[1..])
  }

  /** Sum of the squared deviations of the elements from the centre m. */
  function SquaredDeviations(xs: seq<real>, m: real): (r: real)
    ensures r >= 0.0
  {
    if xs == [] then 0.0
    else
      SquareNonNegative(xs[0] - m);
      (xs[0] - m) * (xs[0] - m) + SquaredDeviations(xs[1..], m)
  }

  /** A square is non-negative, and positive unless its root is zero. */
  lemma SquareNonNegative(d: real)
    ensures d * d >= 0.0
    ensures d != 0.0 ==> d * d > 0.0
  {
    if d < 0.0 {
      assert d * d == (-d) * (-d);
    }
  }

  /** Sample variance: squared deviations from the mean over n - 1. */
  function SampleVariance(xs: seq<real>): (v: real)
    requires |xs| >= 2
    ensures v >= 0.0
  {
    SquaredDeviations(xs, Mean(xs)) / (|xs| - 1) as real
  }

  /** s is the non-negative square root of x. */
  predicate IsRootOf(s: real, x: real)
  {
    0.0 <= s && s * s == x
  }

  /** `sqrt` returns the exact non-negative square root of every non-negative real. */
  ghost predicate IsSquareRoot(sqrt: real -> real)
  {
    forall x: real :: 0.0 <= x ==> IsRootOf(sqrt(x), x)
  }

  /** Sample standard deviation of a slice of at least two prices. */
  function StdDev(xs: seq<real>, sqrt: real -> real): (s: real)
    requires |xs| >= 2
    requires IsSquareRoot(sqrt)
    ensures IsRootOf(s, SampleVariance(xs))
  {
    sqrt(SampleVariance(xs))
  }

  /** A non-negative real whose square is zero is zero. */
  lemma SquareZero(s: real)
    requires IsRootOf(s, 0.0)
    ensures s == 0.0
  {
    if s != 0.0 {
      calc {
        0.0;
        s * s;
      > { SquareNonNegative(s); }
        0.0;
      }
    }
  }

  /** Appending one element adds it to the sum. */
  lemma {:induction false} SumSnoc(xs: seq<real>, x: real)
    ensures Sum(xs + [x]) == Sum(xs) + x
  {
    if xs != [] {
      assert (xs + [x])[1..] == xs[1..] + [x];
      SumSnoc(xs[1..], x);
    }
  }

  /** The sum of a concatenation is the sum of the sums. */
  lemma {:induction false} SumConcat(xs: seq<real>, ys: seq<real>)
    ensures Sum(xs + ys) == Sum(xs) + Sum(ys)
  {
    if xs == [] {
      assert xs + ys == ys;
    } else {
      assert (xs + ys)[0] == xs[0];
      assert (xs + ys)[1..] == xs[1..] + ys;
      SumConcat(xs[1..], ys);
    }
  }

  /** A slice whose every element is c sums to n * c. */
  lemma {:induction false} SumConstant(xs: seq<real>, c: real)
    requires forall k :: 0 <= k < |xs| ==> xs[k] == c
    ensures Sum(xs) == |xs| as real * c
  {
    if xs != [] {
      SumConstant(xs[1..], c);
    }
  }

  /** The mean of a slice whose every element is c is c. */
  lemma MeanOfConstant(xs: seq<real>, c: real)
    requires |xs| > 0
    requires forall k :: 0 <= k < |xs| ==> xs[k] == c
    ensures Mean(xs) == c
  {
    SumConstant(xs, c);
  }

  /** Every element lying in [lo, hi] bounds the sum by n * lo and n * hi. */
  lemma {:induction false} SumBounds(xs: seq<real>, lo: real, hi: real)
    requires forall k :: 0 <= k < |xs| ==> lo <= xs[k] <= hi
    ensures |xs| as real * lo <= Sum(xs) <= |xs| as real * hi
  {
    if xs != [] {
      SumBounds(xs[1..], lo, hi);
    }
  }

  /** The mean lies between any lower and upper bound of the elements. */
  lemma MeanWithinBounds(xs: seq<real>, lo: real, hi: real)
    requires |xs| > 0
    requires forall k :: 0 <= k < |xs| ==> lo <= xs[k] <= hi
    ensures lo <= Mean(xs) <= hi
  {
    SumBounds(xs, lo, hi);
    var n := |xs| as real;
    assert n * lo <= Sum(xs) <= n * hi;
    assert lo == (n * lo) / n && hi == (n * hi) / n;
  }

  /** The squared deviations from m vanish exactly when every element equals m. */
  lemma {:induction false} SquaredDeviationsZero(xs: seq<real>, m: real)
    ensures SquaredDeviations(xs, m) == 0.0 <==> forall k :: 0 <= k < |xs| ==> xs[k] == m
  {
    if xs != [] {
      var d, rest := xs[0] - m, xs[1..];
      SquaredDeviationsZero(rest, m);
      SquareNonNegative(d);
      assert SquaredDeviations(xs, m) == d * d + SquaredDeviations(rest, m);
      if SquaredDeviations(xs, m) == 0.0 {
        if d != 0.0 {
          calc {
            0.0;
            SquaredDeviations(xs, m);
            d * d + SquaredDeviations(rest, m);
          >= d * d;
          > 0.0;
          }
        }
        forall k | 0 <= k < |xs| ensures xs[k] == m {
          if k > 0 { assert xs[k] == rest[k - 1]; }
        }
      }
      if forall k :: 0 <= k < |xs| ==> xs[k] == m {
        assert forall k :: 0 <= k < |rest| ==> rest[k] == xs[k + 1];
      }
    }
  }

  /**
   * sd is the expansion of a slice's squared deviations from m, given the
   * slice's sum of squares ss, sum s and length len: ss - 2 m s + len m^2.
   */
  predicate Expands(sd: real, m: real, ss: real, s: real, len: real)
  {
    sd == ss - 2.0 * m * s + len * m * m
  }

  /** The expansion holds of the empty slice, where every sum is zero. */
  lemma ExpandEmpty(m: real)
    ensures Expands(0.0, m, 0.0, 0.0, 0.0)
  {
  }

  /** One element x joining a slice whose squared deviations expand keeps them expanding. */
  lemma ExpandStep(x: real, m: real, sdRest: real, a: real, t: real, n: real,
                   sd: real, ss: real, s: real, len: real)
    requires Expands(sdRest, m, a, t, n)
    requires sd == (x - m) * (x - m) + sdRest
    requires ss == x * x + a && s == x + t && len == n + 1.0
    ensures Expands(sd, m, ss, s, len)
  {
    assert (x - m) * (x - m) == x * x - 2.0 * m * x + m * m;
    assert 2.0 * m * (x + t) == 2.0 * m * x + 2.0 * m * t;
    assert (n + 1.0) * m * m == n * m * m + m * m;
  }

  /**
   * Textbook expansion of the squared deviations:
   * sum (x - m)^2 == sum x^2 - 2 m sum x + n m^2.
   */
  lemma {:induction false} SquaredDeviationsExpand(xs: seq<real>, m: real)
    ensures Expands(SquaredDeviations(xs, m), m, SumOfSquares(xs), Sum(xs), |xs| as real)
  {
    if xs == [] {
      ExpandEmpty(m);
    } else {
      var rest := xs[1..];
      SquaredDeviationsExpand(rest, m);
      ExpandStep(xs[0], m, SquaredDeviations(rest, m), SumOfSquares(rest), Sum(rest), |rest| as real,
                 SquaredDeviations(xs, m), SumOfSquares(xs), Sum(xs), |xs| as real);
    }
  }

  /** The sum of a non-empty slice is its length times its mean. */
  lemma SumIsLengthTimesMean(xs: seq<real>, m: real)
    requires |xs| > 0 && m == Mean(xs)
    ensures Sum(xs) == |xs| as real * m
  {
  }

  /** Centred at the mean (s == n m), the expansion collapses to ss - n m^2. */
  lemma CentredExpansion(sd: real, m: real, ss: real, s: real, n: real)
    requires Expands(sd, m, ss, s, n)
    requires s == n * m
    ensures sd == ss - n * m * m
  {
    assert 2.0 * m * (n * m) == 2.0 * (n * m * m);
  }

  /**
   * The computational formula of the sample variance, an independent
   * definition: with m the mean, (sum x^2 - n m^2) / (n - 1).
   */
  lemma SampleVarianceFormula(xs: seq<real>, m: real)
    requires |xs| >= 2 && m == Mean(xs)
    ensures SampleVariance(xs) == (SumOfSquares(xs) - |xs| as real * m * m) / (|xs| - 1) as real
  {
    SquaredDeviationsFromMean(xs, m);
    DivideEqual(SquaredDeviations(xs, m), SumOfSquares(xs) - |xs| as real * m * m,
                (|xs| - 1) as real, SampleVariance(xs));
  }

  /** The squared deviations from the mean m are the sum of squares less n m^2. */
  lemma SquaredDeviationsFromMean(xs: seq<real>, m: real)
    requires |xs| > 0 && m == Mean(xs)
    ensures SquaredDeviations(xs, m) == SumOfSquares(xs) - |xs| as real * m * m
  {
    SquaredDeviationsExpand(xs, m);
    SumIsLengthTimesMean(xs, m);
    CentredExpansion(SquaredDeviations(xs, m), m, SumOfSquares(xs), Sum(xs), |xs| as real);
  }

  /** Equal numerators over the same divisor give equal quotients. */
  lemma DivideEqual(a: real, b: real, d: real, v: real)
    requires d != 0.0 && a == b && v == a / d
    ensures v == b / d
  {
  }

  /** The sample variance is zero exactly when every element of the slice is equal. */
  lemma SampleVarianceZeroIffFlat(xs: seq<real>)
    requires |xs| >= 2
    ensures SampleVariance(xs) == 0.0 <==> forall k :: 0 <= k < |xs| ==> xs[k] == xs[0]
  {
    var m := Mean(xs);
    SquaredDeviationsZero(xs, m);
    if forall k :: 0 <= k < |xs| ==> xs[k] == xs[0] {
      MeanOfConstant(xs, xs[0]);
    }
  }

  /** The standard deviation is zero exactly when every element of the slice is equal. */
  lemma StdDevZeroIffFlat(xs: seq<real>, sqrt: real -> real)
    requires |xs| >= 2
    requires IsSquareRoot(sqrt)
    ensures StdDev(xs, sqrt) == 0.0 <==> forall k :: 0 <= k < |xs| ==> xs[k] == xs[0]
  {
    var s := StdDev(xs, sqrt);
    SampleVarianceZeroIffFlat(xs);
    if SampleVariance(xs) == 0.0 {
      SquareZero(s);
    }
  }
}
