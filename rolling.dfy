/** Trailing-window statistics over a series of numbers (pandas `rolling(w).mean()`). */
module Rolling {
  import opened Wrappers

  function Sum(s: seq<real>): real
  {
    if s == [] then 0.0 else Sum(s[..|s| - 1]) + s[|s| - 1]
  }

  /**
   * The mean of the `w` values ending at index `i`; missing until a full
   * window exists (the default `min_periods` equals the window).
   */
  function RollingMean(s: seq<real>, w: nat, i: nat): (r: Option<real>)
    requires 1 <= w && i < |s|
    ensures r.Some? <==> w <= i + 1
    ensures r.Some? ==> r.value * (w as real) == Sum(s[i + 1 - w..i + 1])
  {
    if i + 1 < w then None else Some(Sum(s[i + 1 - w..i + 1]) / (w as real))
  }

  lemma {:induction false} SumBounds(s: seq<real>, lo: real, hi: real)
    requires forall k :: 0 <= k < |s| ==> lo <= s[k] <= hi
    ensures (|s| as real) * lo <= Sum(s) <= (|s| as real) * hi
  {
    if s != [] {
      var init := s[..|s| - 1];
      assert forall k :: 0 <= k < |init| ==> init[k] == s[k];
      SumBounds(init, lo, hi);
      assert (|s| as real) * lo == (|init| as real) * lo + lo;
      assert (|s| as real) * hi == (|init| as real) * hi + hi;
    }
  }

  /** A sum of non-negative values is non-negative, and zero exactly when every value is. */
  lemma {:induction false} SumOfNonNegative(s: seq<real>)
    requires forall k :: 0 <= k < |s| ==> 0.0 <= s[k]
    ensures 0.0 <= Sum(s)
    ensures Sum(s) == 0.0 <==> forall k :: 0 <= k < |s| ==> s[k] == 0.0
  {
    if s != [] {
      var init := s[..|s| - 1];
      assert forall k :: 0 <= k < |init| ==> init[k] == s[k];
      SumOfNonNegative(init);
    }
  }

  /** A sum of non-positive values is non-positive, and zero exactly when every value is. */
  lemma {:induction false} SumOfNonPositive(s: seq<real>)
    requires forall k :: 0 <= k < |s| ==> s[k] <= 0.0
    ensures Sum(s) <= 0.0
    ensures Sum(s) == 0.0 <==> forall k :: 0 <= k < |s| ==> s[k] == 0.0
  {
    if s != [] {
      var init := s[..|s| - 1];
      assert forall k :: 0 <= k < |init| ==> init[k] == s[k];
      SumOfNonPositive(init);
    }
  }

  /** A full-window mean lies between any bounds of the values in its window. */
  lemma MeanWithin(s: seq<real>, w: nat, i: nat, lo: real, hi: real)
    requires 1 <= w <= i + 1 <= |s|
    requires forall k :: i + 1 - w <= k <= i ==> lo <= s[k] <= hi
    ensures RollingMean(s, w, i).Some?
    ensures lo <= RollingMean(s, w, i).value <= hi
  {
    var win := s[i + 1 - w..i + 1];
    assert forall k :: 0 <= k < |win| ==> win[k] == s[i + 1 - w + k];
    SumBounds(win, lo, hi);
    var m, n := RollingMean(s, w, i).value, w as real;
    assert m * n == Sum(win);
    assert (m - lo) * n == m * n - lo * n;
    assert (hi - m) * n == hi * n - m * n;
    NonNegativeFactor(m - lo, n);
    NonNegativeFactor(hi - m, n);
  }

  /** A product with a positive factor is non-negative only if the other factor is. */
  lemma NonNegativeFactor(a: real, b: real)
    requires 0.0 < b && 0.0 <= a * b
    ensures 0.0 <= a
  {
  }

  /** A full-window mean of non-negative values is non-negative, and zero exactly when every value is. */
  lemma MeanOfNonNegative(s: seq<real>, w: nat, i: nat)
    requires 1 <= w <= i + 1 <= |s|
    requires forall k :: i + 1 - w <= k <= i ==> 0.0 <= s[k]
    ensures RollingMean(s, w, i).Some? && 0.0 <= RollingMean(s, w, i).value
    ensures RollingMean(s, w, i).value == 0.0 <==> forall k :: i + 1 - w <= k <= i ==> s[k] == 0.0
  {
    var win := s[i + 1 - w..i + 1];
    assert forall k :: 0 <= k < |win| ==> win[k] == s[i + 1 - w + k];
    SumOfNonNegative(win);
    if forall k :: 0 <= k < |win| ==> win[k] == 0.0 {
      forall k | i + 1 - w <= k <= i
        ensures s[k] == 0.0
      {
        assert s[k] == win[k - (i + 1 - w)];
      }
    }
  }

  /** A full-window mean of non-positive values is non-positive, and zero exactly when every value is. */
  lemma MeanOfNonPositive(s: seq<real>, w: nat, i: nat)
    requires 1 <= w <= i + 1 <= |s|
    requires forall k :: i + 1 - w <= k <= i ==> s[k] <= 0.0
    ensures RollingMean(s, w, i).Some? && RollingMean(s, w, i).value <= 0.0
    ensures RollingMean(s, w, i).value == 0.0 <==> forall k :: i + 1 - w <= k <= i ==> s[k] == 0.0
  {
    var win := s[i + 1 - w..i + 1];
    assert forall k :: 0 <= k < |win| ==> win[k] == s[i + 1 - w + k];
    SumOfNonPositive(win);
    if forall k :: 0 <= k < |win| ==> win[k] == 0.0 {
      forall k | i + 1 - w <= k <= i
        ensures s[k] == 0.0
      {
        assert s[k] == win[k - (i + 1 - w)];
      }
    }
  }

  /** Over a window of equal values the mean is that value. */
  lemma MeanOfConstant(s: seq<real>, w: nat, i: nat, c: real)
    requires 1 <= w <= i + 1 <= |s|
    requires forall k :: i + 1 - w <= k <= i ==> s[k] == c
    ensures RollingMean(s, w, i) == Some(c)
  {
    MeanWithin(s, w, i, c, c);
  }
}
