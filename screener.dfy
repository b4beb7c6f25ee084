/**
 * `calculate_indicators`: adds the MA_50, MA_200, RSI and MACD columns to a
 * date-sorted daily frame and then drops every row holding a NaN.
 */
module Screener {
  import opened Ieee
  import opened Rolling
  import opened Indicators
  import opened Frame

  const CloseName: string := "4. close"
  const Ma50Name: string := "MA_50"
  const Ma200Name: string := "MA_200"
  const RsiName: string := "RSI"
  const MacdName: string := "MACD"

  predicate AllNumbers(col: seq<Float>)
  {
    forall k :: 0 <= k < |col| ==> col[k].Num?
  }

  /** No column holds a NaN, as in a frame parsed from the daily time series. */
  ghost predicate NoMissing(columns: Columns)
  {
    forall c | c in columns :: forall k :: 0 <= k < |columns[c]| ==> !columns[c][k].NaN?
  }

  function Closes(col: seq<Float>): (close: seq<real>)
    requires AllNumbers(col)
    ensures |close| == |col|
    ensures forall k :: 0 <= k < |col| ==> col[k] == Num(close[k])
  {
    seq(|col|, k requires 0 <= k < |col| => col[k].v)
  }

  /** `close.rolling(w).mean()` */
  function MaColumn(close: seq<real>, w: nat): seq<Float>
    requires 1 <= w
  {
    seq(|close|, i requires 0 <= i < |close| => Lift(RollingMean(close, w, i)))
  }

  /** `100 - (100 / (1 + gain / loss))` */
  function RsiColumn(close: seq<real>): seq<Float>
  {
    seq(|close|, i requires 0 <= i < |close| => Rsi(close, i))
  }

  /** `ema12 - ema26` */
  function MacdColumn(close: seq<real>): seq<Float>
  {
    seq(|close|, i requires 0 <= i < |close| => Num(Macd(close, i)))
  }

  /** The frame has a `4. close` column and every entry of it is a number. */
  predicate HasNumericClose(columns: Columns)
  {
    CloseName in columns && AllNumbers(columns[CloseName])
  }

  function CloseOf(columns: Columns): seq<real>
    requires HasNumericClose(columns)
  {
    Closes(columns[CloseName])
  }

  /**
   * The frame once the four indicator columns are assigned: the input columns
   * are untouched, the derived ones are added (or replaced), all of equal length.
   */
  function Augment(columns: Columns): (r: Columns)
    requires HasNumericClose(columns)
    ensures r.Keys == columns.Keys + {Ma50Name, Ma200Name, RsiName, MacdName}
    ensures forall c | c in columns && c !in {Ma50Name, Ma200Name, RsiName, MacdName} :: r[c] == columns[c]
    ensures Shaped(columns, |columns[CloseName]|) ==> Shaped(r, |columns[CloseName]|)
  {
    var close := CloseOf(columns);
    columns[Ma50Name := MaColumn(close, ShortWindow)]
           [Ma200Name := MaColumn(close, LongWindow)]
           [RsiName := RsiColumn(close)]
           [MacdName := MacdColumn(close)]
  }

  /**
   * Whether row `i` survives `dropna`: it needs a full 200-day window, and
   * a close that moved from the previous row somewhere in rows `i-13..i`
   * (otherwise the RSI is 0/0).
   */
  predicate Retained(close: seq<real>, i: nat)
    requires i < |close|
  {
    i >= LongWindow - 1 && !Flat(close, i)
  }

  method CalculateIndicators(df: DataFrame) returns (result: DataFrame)
    requires df.Valid() && HasNumericClose(df.columns)
    modifies df
    ensures result == df && df.Valid()
    ensures var augmented := Augment(old(df.columns));
      var kept := CompleteRows(augmented, |old(df.index)|);
      df.index == Pick(old(df.index), kept) && df.columns == PickColumns(augmented, kept)
  {
    var close := Closes(df.columns[CloseName]);
    df.SetColumn(Ma50Name, MaColumn(close, ShortWindow));
    df.SetColumn(Ma200Name, MaColumn(close, LongWindow));
    df.SetColumn(RsiName, RsiColumn(close));
    df.SetColumn(MacdName, MacdColumn(close));
    df.DropNa();
    result := df;
  }

  /** A row without NaN is retained: it has a full 200-day window and a non-flat RSI window, whatever the input columns hold. */
  lemma CompleteIsRetained(columns: Columns, i: nat)
    requires HasNumericClose(columns) && i < |CloseOf(columns)|
    requires Complete(Augment(columns), i)
    ensures Retained(CloseOf(columns), i)
  {
    var aug: Columns, close: seq<real> := Augment(columns), CloseOf(columns);
    DerivedColumns(columns);
    assert Ma200Name in aug && !aug[Ma200Name][i].NaN?;
    assert RsiName in aug && !aug[RsiName][i].NaN?;
    RsiUndefined(close, i);
  }

  /** A retained row has a value in every derived column, and in the input columns when they hold no NaN. */
  lemma RetainedIsComplete(columns: Columns, n: nat, i: nat)
    requires HasNumericClose(columns) && Shaped(columns, n) && NoMissing(columns) && i < n
    requires Retained(CloseOf(columns), i)
    ensures Complete(Augment(columns), i)
  {
    var aug: Columns, close: seq<real> := Augment(columns), CloseOf(columns);
    DerivedColumns(columns);
    RsiUndefined(close, i);
    forall c | c in aug
      ensures i < |aug[c]| && !aug[c][i].NaN?
    {
      if c == Ma50Name {
        assert aug[c][i] == Lift(RollingMean(close, ShortWindow, i));
      } else if c == Ma200Name {
        assert aug[c][i] == Lift(RollingMean(close, LongWindow, i));
      } else if c == RsiName {
        assert aug[c][i] == Rsi(close, i);
      } else if c == MacdName {
        assert aug[c][i] == Num(Macd(close, i));
      } else {
        assert aug[c] == columns[c];
      }
    }
  }

  /** When the input columns hold no NaN, row `i` is complete exactly when it is retained. */
  lemma CompleteIffRetained(columns: Columns, n: nat, i: nat)
    requires HasNumericClose(columns) && Shaped(columns, n) && NoMissing(columns) && i < n
    ensures Complete(Augment(columns), i) <==> Retained(CloseOf(columns), i)
  {
    if Complete(Augment(columns), i) {
      CompleteIsRetained(columns, i);
    }
    if Retained(CloseOf(columns), i) {
      RetainedIsComplete(columns, n, i);
    }
  }

  /**
   * The rows the engine keeps are exactly the retained ones, in ascending
   * order, and there are no more of them than input rows.
   */
  lemma KeptRows(columns: Columns, n: nat)
    requires HasNumericClose(columns) && Shaped(columns, n) && NoMissing(columns)
    ensures var kept := CompleteRows(Augment(columns), n);
      && |kept| <= n
      && (forall j, k :: 0 <= j < k < |kept| ==> kept[j] < kept[k])
      && (forall i: nat :: i in kept <==> i < n && Retained(CloseOf(columns), i))
  {
    var kept := CompleteRows(Augment(columns), n);
    forall i: nat
      ensures i in kept <==> i < n && Retained(CloseOf(columns), i)
    {
      if i < n {
        CompleteIffRetained(columns, n, i);
      } else {
        assert i !in kept;
      }
    }
  }

  /** Fewer than 200 rows give an empty result, whatever their content. */
  lemma ShortSeriesEmpty(columns: Columns, n: nat)
    requires HasNumericClose(columns) && Shaped(columns, n) && n < LongWindow
    ensures CompleteRows(Augment(columns), n) == []
  {
    var kept := CompleteRows(Augment(columns), n);
    if kept != [] {
      CompleteIsRetained(columns, kept[0]);
    }
  }

  /** On a constant close series every RSI window is 0/0, so nothing is kept, however long the series. */
  lemma ConstantSeriesEmpty(columns: Columns, n: nat, c: real)
    requires HasNumericClose(columns) && Shaped(columns, n)
    requires forall k :: 0 <= k < n ==> CloseOf(columns)[k] == c
    ensures CompleteRows(Augment(columns), n) == []
  {
    var close := CloseOf(columns);
    forall i | 0 <= i < n
      ensures Complete(Augment(columns), i) <==> n <= i
    {
      assert Flat(close, i) by {
        forall k: nat | i - (RsiPeriod - 1) <= k <= i
          ensures !Moved(close, k)
        {
          if k >= 1 {
            assert close[k] == c && close[k - 1] == c;
          }
        }
      }
      if Complete(Augment(columns), i) {
        CompleteIsRetained(columns, i);
      }
    }
    RowsFrom(Augment(columns), n, n);
  }

  predicate StrictlyIncreasing(close: seq<real>)
  {
    forall j, k :: 0 <= j < k < |close| ==> close[j] < close[k]
  }

  /** On a strictly increasing series there are no losses and some gains, so the RSI is 100 from index 13 on. */
  lemma RisingRsiIsHundred(close: seq<real>, i: nat)
    requires StrictlyIncreasing(close) && RsiPeriod - 1 <= i < |close|
    ensures Rsi(close, i) == Num(100.0)
  {
    AvgGainZero(close, i);
    AvgLossZero(close, i);
    assert GainPart(close, i) > 0.0;
    RsiHundred(close, i);
  }

  /** The run lo, lo+1, ..., hi-1 (empty when hi <= lo). */
  function Run(lo: nat, hi: nat): (r: seq<nat>)
    ensures |r| == if hi <= lo then 0 else hi - lo
    ensures forall j :: 0 <= j < |r| ==> r[j] == lo + j
  {
    if hi <= lo then [] else Run(lo, hi - 1) + [hi - 1]
  }

  /** A selection that keeps exactly the rows from `lo` on is the run lo, ..., m-1. */
  lemma {:induction false} RowsFrom(columns: Columns, m: nat, lo: nat)
    requires forall i :: 0 <= i < m ==> (Complete(columns, i) <==> lo <= i)
    ensures CompleteRows(columns, m) == Run(lo, m)
  {
    if m > 0 {
      RowsFrom(columns, m - 1, lo);
    }
  }

  /** On a strictly increasing NaN-free series, the complete rows are exactly those from 199 on. */
  lemma RisingCompleteFrom(columns: Columns, n: nat)
    requires HasNumericClose(columns) && Shaped(columns, n) && NoMissing(columns)
    requires StrictlyIncreasing(CloseOf(columns))
    ensures forall i :: 0 <= i < n ==> (Complete(Augment(columns), i) <==> LongWindow - 1 <= i)
  {
    var close := CloseOf(columns);
    forall i | 0 <= i < n
      ensures Complete(Augment(columns), i) <==> LongWindow - 1 <= i
    {
      CompleteIffRetained(columns, n, i);
      if i >= 1 {
        assert Moved(close, i);
      }
    }
  }

  /**
   * A strictly increasing series of n >= 200 NaN-free rows keeps exactly the
   * rows 199, ..., n-1 (n - 199 of them), each with an RSI of 100.
   */
  lemma RisingSeriesKeepsTail(columns: Columns, n: nat)
    requires HasNumericClose(columns) && Shaped(columns, n) && NoMissing(columns)
    requires StrictlyIncreasing(CloseOf(columns)) && n >= LongWindow
    ensures var kept := CompleteRows(Augment(columns), n);
      && kept == Run(LongWindow - 1, n)
      && |kept| == n - (LongWindow - 1)
      && (forall j :: 0 <= j < |kept| ==> Augment(columns)[RsiName][kept[j]] == Num(100.0))
  {
    RisingCompleteFrom(columns, n);
    RowsFrom(Augment(columns), n, LongWindow - 1);
    var kept := CompleteRows(Augment(columns), n);
    forall j | 0 <= j < |kept|
      ensures Augment(columns)[RsiName][kept[j]] == Num(100.0)
    {
      RisingRsiIsHundred(CloseOf(columns), kept[j]);
    }
  }

  /** The four derived columns of the augmented frame. */
  lemma DerivedColumns(columns: Columns)
    requires HasNumericClose(columns)
    ensures var aug, close := Augment(columns), CloseOf(columns);
      && aug[Ma50Name] == MaColumn(close, ShortWindow)
      && aug[Ma200Name] == MaColumn(close, LongWindow)
      && aug[RsiName] == RsiColumn(close)
      && aug[MacdName] == MacdColumn(close)
  {
    assert Ma50Name != Ma200Name && Ma50Name != RsiName && Ma50Name != MacdName;
    assert Ma200Name != RsiName && Ma200Name != MacdName && RsiName != MacdName;
  }

  /** Output row `j` holds, in every column, the entry of the row it was kept from. */
  lemma OutputRow(columns: Columns, n: nat, j: nat, c: string)
    requires HasNumericClose(columns) && Shaped(columns, n)
    requires j < |CompleteRows(Augment(columns), n)| && c in Augment(columns)
    ensures var kept := CompleteRows(Augment(columns), n);
      PickColumns(Augment(columns), kept)[c][j] == Augment(columns)[c][kept[j]]
  {
    var aug := Augment(columns);
    var kept := CompleteRows(aug, n);
    assert PickColumns(aug, kept)[c] == Pick(aug[c], kept);
  }

  /** In every kept row the input columns are unchanged. */
  lemma KeptRowInputs(columns: Columns, n: nat, j: nat)
    requires HasNumericClose(columns) && Shaped(columns, n)
    requires j < |CompleteRows(Augment(columns), n)|
    ensures var kept := CompleteRows(Augment(columns), n);
      var out := PickColumns(Augment(columns), kept);
      forall c | c in columns && c !in {Ma50Name, Ma200Name, RsiName, MacdName} :: out[c][j] == columns[c][kept[j]]
  {
    forall c | c in columns && c !in {Ma50Name, Ma200Name, RsiName, MacdName}
      ensures PickColumns(Augment(columns), CompleteRows(Augment(columns), n))[c][j]
        == columns[c][CompleteRows(Augment(columns), n)[j]]
    {
      OutputRow(columns, n, j, c);
    }
  }

  /**
   * In every kept row the indicators are those of the full input series at
   * the row's original index: in particular the EMAs behind MACD are not
   * restarted after the filter.
   */
  lemma KeptRowIndicators(columns: Columns, n: nat, j: nat)
    requires HasNumericClose(columns) && Shaped(columns, n)
    requires j < |CompleteRows(Augment(columns), n)|
    ensures var kept := CompleteRows(Augment(columns), n);
      var out := PickColumns(Augment(columns), kept);
      var i, close := kept[j], CloseOf(columns);
      && out[Ma50Name][j] == Lift(RollingMean(close, ShortWindow, i))
      && out[Ma200Name][j] == Lift(RollingMean(close, LongWindow, i))
      && out[RsiName][j] == Rsi(close, i)
      && out[MacdName][j] == Num(Ema(close, Alpha(FastSpan), i) - Ema(close, Alpha(SlowSpan), i))
  {
    DerivedColumns(columns);
    OutputRow(columns, n, j, Ma50Name);
    OutputRow(columns, n, j, Ma200Name);
    OutputRow(columns, n, j, RsiName);
    OutputRow(columns, n, j, MacdName);
  }

  /** The closes 100, 101, ..., 100 + n - 1 as a float column. */
  function Ramp(n: nat): (col: seq<Float>)
    ensures |col| == n && AllNumbers(col)
    ensures StrictlyIncreasing(Closes(col))
  {
    seq(n, i requires 0 <= i < n => Num(100.0 + i as real))
  }

  /**
   * The 201 closes 100, 101, ..., 300 keep the rows at indices 199 and 200,
   * both with an RSI of 100: rolling(200) already has a full window at index 199.
   */
  lemma RisingScenario()
    ensures CompleteRows(Augment(map[CloseName := Ramp(201)]), 201) == [199, 200]
    ensures Augment(map[CloseName := Ramp(201)])[RsiName][199] == Num(100.0)
    ensures Augment(map[CloseName := Ramp(201)])[RsiName][200] == Num(100.0)
  {
    var columns := map[CloseName := Ramp(201)];
    assert NoMissing(columns);
    var close := CloseOf(columns);
    RisingSeriesKeepsTail(columns, 201);
    assert Run(LongWindow - 1, 201) == [199, 200];
    DerivedColumns(columns);
    RisingRsiIsHundred(close, 199);
    RisingRsiIsHundred(close, 200);
  }
}
