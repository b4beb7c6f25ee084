/**
 * The indicator columns of `calculate_indicators`, one index at a time, over
 * the close prices of a date-sorted daily series.
 */
module Indicators {
  import opened Wrappers
  import opened Ieee
  import opened Rolling

  const ShortWindow: nat := 50
  const LongWindow: nat := 200
  const RsiPeriod: nat := 14
  const FastSpan: nat := 12
  const SlowSpan: nat := 26

  // ---------------------------------------------------------------- RSI

  /** `diff()`: the change from the previous close, missing at the first row. */
  function Diff(close: seq<real>, i: nat): Option<real>
    requires i < |close|
  {
    if i == 0 then None else Some(close[i] - close[i - 1])
  }

  /** True when the close at `k` differs from the close before it. */
  predicate Moved(close: seq<real>, k: nat)
    requires k < |close|
  {
    k >= 1 && close[k] != close[k - 1]
  }

  /** `delta.where(delta > 0, 0)`: a comparison with NaN is false, so the first row becomes 0. */
  function GainPart(close: seq<real>, k: nat): (g: real)
    requires k < |close|
    ensures 0.0 <= g
    ensures g > 0.0 <==> k >= 1 && close[k] > close[k - 1]
  {
    var d := Diff(close, k);
    if d.Some? && d.value > 0.0 then d.value else 0.0
  }

  /** `delta.where(delta < 0, 0)`: the falls, as non-positive values, with 0 elsewhere. */
  function LossPart(close: seq<real>, k: nat): (l: real)
    requires k < |close|
    ensures l <= 0.0
    ensures l < 0.0 <==> k >= 1 && close[k] < close[k - 1]
  {
    var d := Diff(close, k);
    if d.Some? && d.value < 0.0 then d.value else 0.0
  }

  function Gains(close: seq<real>): seq<real>
  {
    seq(|close|, k requires 0 <= k < |close| => GainPart(close, k))
  }

  function Losses(close: seq<real>): seq<real>
  {
    seq(|close|, k requires 0 <= k < |close| => LossPart(close, k))
  }

  /** The 14-period mean gain; defined from index 13 on and never negative. */
  function AvgGain(close: seq<real>, i: nat): (r: Option<real>)
    requires i < |close|
    ensures r.Some? <==> i >= RsiPeriod - 1
    ensures r.Some? ==> 0.0 <= r.value
  {
    var m := RollingMean(Gains(close), RsiPeriod, i);
    if m.Some? then
      MeanOfNonNegative(Gains(close), RsiPeriod, i);
      m
    else m
  }

  /** The negated 14-period mean of the falls; defined from index 13 on and never negative. */
  function AvgLoss(close: seq<real>, i: nat): (r: Option<real>)
    requires i < |close|
    ensures r.Some? <==> i >= RsiPeriod - 1
    ensures r.Some? ==> 0.0 <= r.value
  {
    var m := RollingMean(Losses(close), RsiPeriod, i);
    if m.Some? then
      MeanOfNonPositive(Losses(close), RsiPeriod, i);
      Some(-m.value)
    else None
  }

  /** `100 - (100 / (1 + rs))` with `rs = gain / loss`, in floating-point arithmetic. */
  function RsiOf(gain: Float, loss: Float): Float
  {
    var rs := Div(gain, loss);
    Sub(Num(100.0), Div(Num(100.0), Add(Num(1.0), rs)))
  }

  /** The RSI column at index `i`. */
  function Rsi(close: seq<real>, i: nat): Float
    requires i < |close|
  {
    RsiOf(Lift(AvgGain(close, i)), Lift(AvgLoss(close, i)))
  }

  /** No close in rows `i-13..i` moved from the previous row; row 0, which has none, counts as unmoved. */
  predicate Flat(close: seq<real>, i: nat)
    requires i < |close|
  {
    forall k: nat :: i - (RsiPeriod - 1) <= k <= i ==> !Moved(close, k)
  }

  /** The mean gain is zero exactly when no close in the window rose. */
  lemma AvgGainZero(close: seq<real>, i: nat)
    requires RsiPeriod - 1 <= i < |close|
    ensures AvgGain(close, i) == Some(0.0) <==>
      forall k :: i + 1 - RsiPeriod <= k <= i ==> GainPart(close, k) == 0.0
  {
    assert forall k :: 0 <= k < |close| ==> Gains(close)[k] == GainPart(close, k);
    MeanOfNonNegative(Gains(close), RsiPeriod, i);
  }

  /** The mean loss is zero exactly when no close in the window fell. */
  lemma AvgLossZero(close: seq<real>, i: nat)
    requires RsiPeriod - 1 <= i < |close|
    ensures AvgLoss(close, i) == Some(0.0) <==>
      forall k :: i + 1 - RsiPeriod <= k <= i ==> LossPart(close, k) == 0.0
  {
    assert forall k :: 0 <= k < |close| ==> Losses(close)[k] == LossPart(close, k);
    MeanOfNonPositive(Losses(close), RsiPeriod, i);
  }

  /** Both means are zero exactly when the closes were flat over the window. */
  lemma BothZeroIffFlat(close: seq<real>, i: nat)
    requires RsiPeriod - 1 <= i < |close|
    ensures (AvgGain(close, i) == Some(0.0) && AvgLoss(close, i) == Some(0.0)) <==> Flat(close, i)
  {
    AvgGainZero(close, i);
    AvgLossZero(close, i);
    if Flat(close, i) {
      forall k | i + 1 - RsiPeriod <= k <= i
        ensures GainPart(close, k) == 0.0 && LossPart(close, k) == 0.0
      {
        assert !Moved(close, k);
      }
    } else {
      var k: nat :| i - (RsiPeriod - 1) <= k <= i && Moved(close, k);
      assert GainPart(close, k) > 0.0 || LossPart(close, k) < 0.0;
    }
  }

  /**
   * For non-negative means that are not both zero, the floating-point
   * formula gives the finite value 100·gain/(gain+loss): with a zero loss
   * the division gives +inf, and 100/(1+inf) = 0 makes it exactly 100.
   */
  lemma RsiOfClosedForm(g: real, l: real)
    requires 0.0 <= g && 0.0 <= l && g + l > 0.0
    ensures RsiOf(Num(g), Num(l)) == Num(Share(g, l))
  {
    if l == 0.0 {
      assert Div(Num(g), Num(l)) == PosInf;
      assert Div(Num(100.0), Add(Num(1.0), PosInf)) == Num(0.0);
      QuotientOf(100.0, 100.0 * g, g + l);
    } else {
      FractionIdentity(g, l);
      var rs := g / l;
      assert Div(Num(g), Num(l)) == Num(rs);
      assert Div(Num(100.0), Add(Num(1.0), Num(rs))) == Num(100.0 / (1.0 + rs));
    }
  }

  /** 100·gain/(gain+loss), the RSI in closed form. */
  function Share(g: real, l: real): real
    requires g + l != 0.0
  {
    100.0 * g / (g + l)
  }

  lemma FractionIdentity(g: real, l: real)
    requires 0.0 <= g && 0.0 < l
    ensures 1.0 + g / l != 0.0
    ensures 100.0 - 100.0 / (1.0 + g / l) == Share(g, l)
  {
    var q := 1.0 + g / l;
    assert q * l == l + g;
    assert q > 0.0;
    var t := 100.0 / q;
    assert t * q == 100.0;
    calc {
      t * (g + l);
      t * (q * l);
      (t * q) * l;
      100.0 * l;
    }
    assert (100.0 - t) * (g + l) == 100.0 * g;
    QuotientOf(100.0 - t, 100.0 * g, g + l);
  }

  /** A value times a non-zero divisor gives the dividend exactly when it is the quotient. */
  lemma QuotientOf(x: real, y: real, d: real)
    requires d != 0.0 && x * d == y
    ensures x == y / d
  {
  }

  /** Wherever both means exist and are not both zero, the RSI is 100·gain/(gain+loss). */
  lemma RsiClosedForm(close: seq<real>, i: nat)
    requires RsiPeriod - 1 <= i < |close|
    requires AvgGain(close, i).value + AvgLoss(close, i).value > 0.0
    ensures var g, l := AvgGain(close, i).value, AvgLoss(close, i).value;
      Rsi(close, i) == Num(Share(g, l))
  {
    RsiOfClosedForm(AvgGain(close, i).value, AvgLoss(close, i).value);
  }

  /** The RSI is NaN exactly before index 13 or over a flat window (0/0); it is never infinite. */
  lemma RsiUndefined(close: seq<real>, i: nat)
    requires i < |close|
    ensures !Rsi(close, i).PosInf? && !Rsi(close, i).NegInf?
    ensures Rsi(close, i).NaN? <==> i < RsiPeriod - 1 || Flat(close, i)
  {
    if i >= RsiPeriod - 1 {
      BothZeroIffFlat(close, i);
      var g, l := AvgGain(close, i).value, AvgLoss(close, i).value;
      if g + l > 0.0 {
        RsiClosedForm(close, i);
      }
    }
  }

  /** Whenever the RSI is defined it lies in [0, 100]. */
  lemma RsiBounds(close: seq<real>, i: nat)
    requires i < |close|
    ensures Rsi(close, i).NaN? || (Rsi(close, i).Num? && 0.0 <= Rsi(close, i).v <= 100.0)
  {
    RsiUndefined(close, i);
    if i >= RsiPeriod - 1 {
      var g, l := AvgGain(close, i).value, AvgLoss(close, i).value;
      if g + l > 0.0 {
        RsiClosedForm(close, i);
        ShareAtMostWhole(g, l);
      }
    }
  }

  lemma ShareAtMostWhole(g: real, l: real)
    requires 0.0 <= g && 0.0 <= l && g + l > 0.0
    ensures 0.0 <= Share(g, l) <= 100.0
    ensures Share(g, l) == 100.0 <==> l == 0.0
  {
    var r := Share(g, l);
    assert r * (g + l) == 100.0 * g;
    assert (100.0 - r) * (g + l) == 100.0 * l;
    NonNegativeFactor(r, g + l);
    NonNegativeFactor(100.0 - r, g + l);
    if l == 0.0 {
      QuotientOf(100.0, 100.0 * g, g + l);
    }
  }

  /** The RSI is exactly 100 when, and only when, the mean loss is zero and the mean gain positive. */
  lemma RsiHundred(close: seq<real>, i: nat)
    requires i < |close|
    ensures Rsi(close, i) == Num(100.0) <==>
      i >= RsiPeriod - 1 && AvgLoss(close, i) == Some(0.0) && AvgGain(close, i).value > 0.0
  {
    RsiUndefined(close, i);
    if i >= RsiPeriod - 1 {
      BothZeroIffFlat(close, i);
      var g, l := AvgGain(close, i).value, AvgLoss(close, i).value;
      if g + l > 0.0 {
        RsiClosedForm(close, i);
        ShareAtMostWhole(g, l);
      }
    }
  }

  // ---------------------------------------------------------------- MACD

  /** The smoothing factor 2/(span+1) that `ewm(span=...)` uses. */
  function Alpha(span: nat): (a: real)
    requires span >= 1
    ensures 0.0 < a <= 1.0
  {
    2.0 / ((span + 1) as real)
  }

  function Lowest(s: seq<real>, i: nat): (m: real)
    requires i < |s|
    ensures forall k :: 0 <= k <= i ==> m <= s[k]
  {
    if i == 0 then s[0]
    else var m := Lowest(s, i - 1); if s[i] < m then s[i] else m
  }

  function Highest(s: seq<real>, i: nat): (m: real)
    requires i < |s|
    ensures forall k :: 0 <= k <= i ==> s[k] <= m
  {
    if i == 0 then s[0]
    else var m := Highest(s, i - 1); if s[i] > m then s[i] else m
  }

  /**
   * `ewm(alpha, adjust=False).mean()`: y[0] = x[0] and
   * y[i] = alpha·x[i] + (1 − alpha)·y[i−1], run over the whole series.  Each
   * value is a weighted average of the closes so far, so it lies between
   * their lowest and highest.
   */
  function Ema(close: seq<real>, alpha: real, i: nat): (y: real)
    requires 0.0 < alpha <= 1.0 && i < |close|
    ensures Lowest(close, i) <= y <= Highest(close, i)
  {
    if i == 0 then close[0]
    else
      var prev := Ema(close, alpha, i - 1);
      ConvexBetween(alpha, close[i], prev, Lowest(close, i), Highest(close, i));
      Smooth(alpha, close[i], prev)
  }

  /** One smoothing step: the new value weighted by `alpha`, the previous average by `1 − alpha`. */
  function Smooth(alpha: real, x: real, prev: real): real
  {
    alpha * x + (1.0 - alpha) * prev
  }

  lemma ConvexBetween(a: real, x: real, y: real, lo: real, hi: real)
    requires 0.0 <= a <= 1.0 && lo <= x <= hi && lo <= y <= hi
    ensures lo <= Smooth(a, x, y) <= hi
  {
    MulNonNegative(a, x - lo);
    MulNonNegative(1.0 - a, y - lo);
    MulNonNegative(a, hi - x);
    MulNonNegative(1.0 - a, hi - y);
  }

  lemma MulNonNegative(a: real, b: real)
    requires 0.0 <= a && 0.0 <= b
    ensures 0.0 <= a * b
  {
  }

  /** MACD: the 12-span EMA minus the 26-span EMA, defined at every index. */
  function Macd(close: seq<real>, i: nat): (m: real)
    requires i < |close|
    ensures Lowest(close, i) - Highest(close, i) <= m <= Highest(close, i) - Lowest(close, i)
  {
    Ema(close, Alpha(FastSpan), i) - Ema(close, Alpha(SlowSpan), i)
  }

  predicate NonDecreasing(close: seq<real>)
  {
    forall j, k :: 0 <= j <= k < |close| ==> close[j] <= close[k]
  }

  /** On a non-decreasing series an EMA never exceeds the latest close. */
  lemma {:induction false} EmaBelowLast(close: seq<real>, alpha: real, i: nat)
    requires 0.0 < alpha <= 1.0 && i < |close| && NonDecreasing(close)
    ensures Ema(close, alpha, i) <= close[i]
  {
    if i > 0 {
      EmaBelowLast(close, alpha, i - 1);
      assert close[i - 1] <= close[i];
      ConvexBetween(alpha, close[i], Ema(close, alpha, i - 1), Ema(close, alpha, i - 1), close[i]);
    }
  }

  /** On a non-decreasing series a faster EMA stays at or above a slower one. */
  lemma {:induction false} FasterEmaAbove(close: seq<real>, fast: real, slow: real, i: nat)
    requires 0.0 < slow <= fast <= 1.0 && i < |close| && NonDecreasing(close)
    ensures Ema(close, slow, i) <= Ema(close, fast, i)
  {
    if i > 0 {
      FasterEmaAbove(close, fast, slow, i - 1);
      EmaBelowLast(close, fast, i - 1);
      assert close[i - 1] <= close[i];
      FasterStep(fast, slow, close[i], Ema(close, fast, i - 1), Ema(close, slow, i - 1));
    }
  }

  lemma FasterStep(fast: real, slow: real, x: real, ef: real, es: real)
    requires 0.0 < slow <= fast <= 1.0 && es <= ef <= x
    ensures Smooth(slow, x, es) <= Smooth(fast, x, ef)
  {
    assert fast * x + (1.0 - fast) * ef - (slow * x + (1.0 - slow) * es)
        == (fast - slow) * (x - ef) + (1.0 - slow) * (ef - es);
    MulNonNegative(fast - slow, x - ef);
    MulNonNegative(1.0 - slow, ef - es);
  }

  /** On a non-decreasing close series the MACD is never negative. */
  lemma MacdNonNegativeWhenRising(close: seq<real>, i: nat)
    requires i < |close| && NonDecreasing(close)
    ensures Macd(close, i) >= 0.0
  {
    FasterEmaAbove(close, Alpha(FastSpan), Alpha(SlowSpan), i);
  }

  /** On a constant close series both EMAs equal the price and the MACD is zero. */
  lemma MacdOfConstant(close: seq<real>, c: real, i: nat)
    requires i < |close| && forall k :: 0 <= k < |close| ==> close[k] == c
    ensures Ema(close, Alpha(FastSpan), i) == c && Ema(close, Alpha(SlowSpan), i) == c
    ensures Macd(close, i) == 0.0
  {
  }
}
