/**
 * Trailing-window columns aligned to the closing-price series, as pandas'
 * `Series.rolling(window=w)` builds them with its default `min_periods = w`:
 * position i holds a value only when the w prices ending at i all exist, and
 * is absent (NaN in pandas, None here) before index w - 1.
 */
module Rolling {
  import opened Wrappers
  import opened Stats

  /** The w prices ending at index i, oldest first. */
  function Trailing(prices: seq<real>, i: int, w: nat): seq<real>
    requires 1 <= w && w - 1 <= i < |prices|
  {
    prices[i - w + 1 .. i + 1]
  }

  /** Trailing simple moving average with window w (`rolling(window=w).mean()`). */
  function MovingAverage(prices: seq<real>, w: nat): (ma: seq<Option<real>>)
    requires w >= 1
    ensures |ma| == |prices|
    ensures forall i :: 0 <= i < |ma| ==> (ma[i].Some? <==> w - 1 <= i)
    ensures forall i :: w - 1 <= i < |ma| ==> ma[i].value == Mean(Trailing(prices, i, w))
  {
    if prices == [] then []
    else
      var n, init := |prices|, prices[..|prices| - 1];
      var rest := MovingAverage(init, w);
      var ma := rest + [if n >= w then Some(Mean(Trailing(prices, n - 1, w))) else None];
      assert forall i :: w - 1 <= i < n - 1 ==> Trailing(init, i, w) == Trailing(prices, i, w);
      assert forall i :: 0 <= i < n - 1 ==> ma[i] == rest[i];
      ma
  }

  /**
   * Rolling sample standard deviation with window w (`rolling(window=w).std()`,
   * ddof = 1): every defined value is the non-negative root of the sample
   * variance of the same trailing window.
   */
  function Volatility(prices: seq<real>, w: nat, sqrt: real -> real): (vol: seq<Option<real>>)
    requires w >= 2
    requires IsSquareRoot(sqrt)
    ensures |vol| == |prices|
    ensures forall i :: 0 <= i < |vol| ==> (vol[i].Some? <==> w - 1 <= i)
    ensures forall i :: w - 1 <= i < |vol| ==>
              IsRootOf(vol[i].value, SampleVariance(Trailing(prices, i, w)))
  {
    if prices == [] then []
    else
      var n, init := |prices|, prices[..|prices| - 1];
      var rest := Volatility(init, w, sqrt);
      var vol := rest + [if n >= w then Some(StdDev(Trailing(prices, n - 1, w), sqrt)) else None];
      assert forall i :: w - 1 <= i < n - 1 ==> Trailing(init, i, w) == Trailing(prices, i, w);
      assert forall i :: 0 <= i < n - 1 ==> vol[i] == rest[i];
      vol
  }

  /** Number of positions of a column that hold a value. */
  function CountDefined<T>(col: seq<Option<T>>): nat
  {
    if col == [] then 0
    else CountDefined(col[..|col| - 1]) + (if col[|col| - 1].Some? then 1 else 0)
  }

  /** A column defined exactly from index w - 1 on holds max(0, L - w + 1) values. */
  lemma {:induction false} CountDefinedFrom<T>(col: seq<Option<T>>, w: nat)
    requires w >= 1
    requires forall i :: 0 <= i < |col| ==> (col[i].Some? <==> w - 1 <= i)
    ensures CountDefined(col) == if |col| >= w then |col| - w + 1 else 0
  {
    if col != [] {
      var init := col[..|col| - 1];
      assert forall i :: 0 <= i < |init| ==> init[i] == col[i];
      CountDefinedFrom(init, w);
    }
  }

  /** The moving average of a series of length L has exactly max(0, L - w + 1) values. */
  lemma MovingAverageDefinedCount(prices: seq<real>, w: nat)
    requires w >= 1
    ensures CountDefined(MovingAverage(prices, w)) == if |prices| >= w then |prices| - w + 1 else 0
  {
    CountDefinedFrom(MovingAverage(prices, w), w);
  }

  /** The volatility column of a series of length L has exactly max(0, L - w + 1) values. */
  lemma VolatilityDefinedCount(prices: seq<real>, w: nat, sqrt: real -> real)
    requires w >= 2
    requires IsSquareRoot(sqrt)
    ensures CountDefined(Volatility(prices, w, sqrt)) == if |prices| >= w then |prices| - w + 1 else 0
  {
    CountDefinedFrom(Volatility(prices, w, sqrt), w);
  }

  /** Moving average and volatility are defined at exactly the same positions. */
  lemma VolatilityAlignedWithMovingAverage(prices: seq<real>, w: nat, sqrt: real -> real, i: int)
    requires w >= 2
    requires IsSquareRoot(sqrt)
    requires 0 <= i < |prices|
    ensures MovingAverage(prices, w)[i].Some? <==> Volatility(prices, w, sqrt)[i].Some?
  {
  }

  /**
   * The moving average can be updated incrementally: moving one step adds the
   * incoming price and drops the outgoing one, each weighted 1 / w.
   */
  lemma MovingAverageStep(prices: seq<real>, w: nat, i: int)
    requires w >= 1
    requires w <= i < |prices|
    ensures MovingAverage(prices, w)[i].value
         == MovingAverage(prices, w)[i - 1].value + (prices[i] - prices[i - w]) / w as real
  {
    var prev, cur := Trailing(prices, i - 1, w), Trailing(prices, i, w);
    assert prev == [prices[i - w]] + prev[1..];
    assert cur == prev[1..] + [prices[i]];
    SumConcat([prices[i - w]], prev[1..]);
    SumSnoc(prev[1..], prices[i]);
    assert Sum(cur) == Sum(prev) - prices[i - w] + prices[i];
    var n := w as real;
    assert Sum(cur) / n == Sum(prev) / n + (prices[i] - prices[i - w]) / n;
  }

  /** Where the w prices of a window all lie in [lo, hi], so does the moving average. */
  lemma MovingAverageWithinRange(prices: seq<real>, w: nat, i: int, lo: real, hi: real)
    requires w >= 1
    requires w - 1 <= i < |prices|
    requires forall k :: i - w + 1 <= k <= i ==> lo <= prices[k] <= hi
    ensures lo <= MovingAverage(prices, w)[i].value <= hi
  {
    var win := Trailing(prices, i, w);
    assert forall k :: 0 <= k < |win| ==> win[k] == prices[i - w + 1 + k];
    MeanWithinBounds(win, lo, hi);
  }

  /** A window of w equal prices c has moving average c there. */
  lemma MovingAverageOfFlatWindow(prices: seq<real>, w: nat, i: int, c: real)
    requires w >= 1
    requires w - 1 <= i < |prices|
    requires forall k :: i - w + 1 <= k <= i ==> prices[k] == c
    ensures MovingAverage(prices, w)[i] == Some(c)
  {
    var win := Trailing(prices, i, w);
    assert forall k :: 0 <= k < |win| ==> win[k] == prices[i - w + 1 + k];
    MeanOfConstant(win, c);
  }

  /** The volatility at a defined position is zero exactly when its window is flat. */
  lemma VolatilityZeroIffFlatWindow(prices: seq<real>, w: nat, sqrt: real -> real, i: int)
    requires w >= 2
    requires IsSquareRoot(sqrt)
    requires w - 1 <= i < |prices|
    ensures Volatility(prices, w, sqrt)[i] == Some(0.0)
        <==> forall k :: i - w + 1 <= k <= i ==> prices[k] == prices[i]
  {
    var win := Trailing(prices, i, w);
    var v := Volatility(prices, w, sqrt)[i].value;
    assert forall k :: 0 <= k < |win| ==> win[k] == prices[i - w + 1 + k];
    SampleVarianceZeroIffFlat(win);
    if v == 0.0 {
      assert SampleVariance(win) == 0.0;
    } else {
      assert SampleVariance(win) != 0.0 by {
        if SampleVariance(win) == 0.0 {
          SquareZero(v);
        }
      }
    }
  }

  /**
   * Five closes 100, 110, 90, 120, 130 with a window of 2: the first position
   * is absent and the others average each pair of neighbours.
   */
  lemma FivePriceExample()
    ensures MovingAverage([100.0, 110.0, 90.0, 120.0, 130.0], 2)
         == [None, Some(105.0), Some(100.0), Some(105.0), Some(125.0)]
  {
    var p := [100.0, 110.0, 90.0, 120.0, 130.0];
    assert p[2] == 90.0 && p[3] == 120.0;
    assert Trailing(p, 1, 2) == [100.0, 110.0];
    assert Trailing(p, 2, 2) == [110.0, 90.0];
    assert Trailing(p, 3, 2) == [90.0, 120.0];
    assert Trailing(p, 4, 2) == [120.0, 130.0];
  }
}
