# Mini TradingView screener: the indicator engine

This project models `calculate_indicators` from `screener.py`. The function
takes a date-sorted pandas frame of daily quotes and assigns four columns in
place: `MA_50` and `MA_200` (simple moving averages of the close), `RSI`
(14-period relative strength index) and `MACD` (EMA-12 minus EMA-26,
`adjust=False`). It then calls `dropna(inplace=True)`, which removes every row
that holds a NaN. The model also covers how `get_historical_data` classifies
the top-level keys of the API response.

Layout, one module per file:

- `wrappers.dfy` (`Wrappers`): `Option`. `None` stands for a NaN entry of a
  finite-or-missing series (`diff`, the rolling means).
- `ieee.dfy` (`Ieee`): a double as the RSI formula sees it. A `Float` is a
  finite number, `+inf`, `-inf` or NaN, with exact arithmetic. The RSI is
  computed as `100 - 100/(1 + gain/loss)` in this arithmetic. A zero loss
  therefore really goes through `gain/0 = +inf` and `100/(1+inf) = 0`, and
  `0/0` really gives NaN.
- `rolling.dfy` (`Rolling`): `rolling(w).mean()` over a series of numbers,
  plus lemmas about means of bounded, constant, non-negative and
  non-positive windows.
- `indicators.dfy` (`Indicators`): the indicators one index at a time over
  the closes:
  - `diff` and the two `where` parts: NaN compares false, so row 0 becomes 0.
  - the 14-period means, and the RSI.
  - `Ema` is the `adjust=False` recurrence `y[0] = x[0]`,
    `y[i] = a·x[i] + (1-a)·y[i-1]` with `a = 2/(span+1)`, run over the whole
    series.
  - `Macd`.
- `frame.dfy` (`Frame`): the `DataFrame` class. It has an index and a map
  from column name to a column of `Float`. `SetColumn` is `df[name] = ...`
  and `DropNa` is `dropna(inplace=True)`; both update the object in place.
  `CompleteRows` is the pure description of which rows `dropna` keeps.
- `screener.dfy` (`Screener`): the column names, `Augment` (the frame after
  lines 73-84), the method `CalculateIndicators` (lines 72-87, mutating its
  argument and returning it), and the lemmas about which rows survive.
- `fetch.dfy` (`Fetch`): the key precedence of `get_historical_data`.

Main results:

- Row `i` survives exactly when `i` is at least 199 and the close moved from
  the previous row at least once in rows `i-13..i`
  (`Screener.KeptRows`). This assumes the input columns hold no NaN, as
  parsed API data does.
- Kept rows keep their order and their input values. Their indicator values
  are those of the full, unfiltered series (`KeptRowInputs`,
  `KeptRowIndicators`).
- Whenever the RSI is defined it is `100·gain/(gain+loss)`, so it lies in
  [0, 100]. It is exactly 100 exactly when the mean loss is 0 and the mean
  gain positive.
- On a non-decreasing series the MACD is never negative.

Edge cases of the code:

- The gain and loss means exist from index 13. `delta.where(...)` replaces
  the NaN from `diff()` at row 0 with 0, so the 14-row window ending at row
  13 is already full.
- `rolling(200)` has a full window at index 199. The 201 closes 100..300
  therefore keep two rows, indices 199 and 200, both with RSI 100
  (`Screener.RisingScenario`). That scenario's input is built by
  `Screener.Ramp`, the closes 100, 101, ... of a given length.
- When both means are 0 the RSI is 0/0, which is NaN, so the row is dropped.
- The engine does not check that the dates are sorted. Dates take no part in
  the computation. When the index is strictly increasing, the kept index is
  too (`Frame.PickKeepsOrder`).
- The engine raises when the close column is missing (`KeyError` at line 73,
  reachable with an empty `"Time Series (Daily)"` object, whose frame has no
  columns) or not numeric (`diff` and `rolling().mean()` fail). The
  precondition `Screener.HasNumericClose` excludes those inputs, so the model
  does not describe the raise.

## Model

| member | source | states |
|---|---|---|
| `Ieee.Add` | screener.py:80 | NaN absorbs, opposite infinities give NaN, finite + finite is the sum, finite + (+inf) is +inf |
| `Ieee.Div` | screener.py:79-80 | NaN exactly for a NaN operand, 0/0, or inf/inf; finite / non-zero is the quotient; positive / 0 is +inf; finite / inf is 0 |
| `Rolling.RollingMean` | screener.py:73-74 | the mean at `i` exists iff `i >= w - 1`, and then `w` times it is the sum of the `w` values ending at `i` |
| `Rolling.MeanWithin` | screener.py:73-74 | a full-window mean lies between any lower and upper bound of the window's values |
| `Rolling.MeanOfConstant` | screener.py:73-74 | over equal values the moving average is that value (MA_50 = MA_200 = C on a constant series) |
| `Rolling.MeanOfNonNegative` | screener.py:77 | a mean of non-negative values is non-negative, and zero iff every value is |
| `Rolling.MeanOfNonPositive` | screener.py:78 | a mean of non-positive values is non-positive, and zero iff every value is |
| `Rolling.SumOfNonNegative` | screener.py:77 | a sum of non-negative values is non-negative, and zero iff every value is |
| `Rolling.SumOfNonPositive` | screener.py:78 | a sum of non-positive values is non-positive, and zero iff every value is |
| `Rolling.SumBounds` | screener.py:73-74 | a sum of n values in [lo, hi] lies in [n·lo, n·hi] |
| `Indicators.GainPart` | screener.py:76-77 | the gain part is non-negative, and positive iff the close rose from the previous row (row 0 gives 0) |
| `Indicators.LossPart` | screener.py:76-78 | the loss part is non-positive, and negative iff the close fell from the previous row (row 0 gives 0) |
| `Indicators.AvgGain` | screener.py:77 | the mean gain exists iff `i >= 13`, and is never negative |
| `Indicators.AvgLoss` | screener.py:78 | the negated mean of the falls exists iff `i >= 13`, and is never negative |
| `Indicators.AvgGainZero` | screener.py:77 | the mean gain is 0 iff no close in the 14-row window rose |
| `Indicators.AvgLossZero` | screener.py:78 | the mean loss is 0 iff no close in the 14-row window fell |
| `Indicators.BothZeroIffFlat` | screener.py:76-79 | both means are 0 iff no close in rows `i-13..i` moved from its previous row (row 0 counts as unmoved, from the `where` zero) |
| `Indicators.RsiOfClosedForm` | screener.py:79-80 | for non-negative gain and loss, not both 0, the float formula gives exactly 100·g/(g+l), including the `g/0 = +inf` path |
| `Indicators.FractionIdentity` | screener.py:79-80 | for a positive loss, `100 - 100/(1 + g/l)` equals 100·g/(g+l) and the divisor is non-zero |
| `Indicators.ShareAtMostWhole` | screener.py:80 | 100·g/(g+l) lies in [0, 100] and equals 100 iff the loss is 0 |
| `Indicators.RsiClosedForm` | screener.py:76-80 | where both means exist and are not both 0, the RSI column holds 100·gain/(gain+loss) |
| `Indicators.RsiUndefined` | screener.py:76-80 | the RSI is never infinite, and is NaN iff `i < 13` or the window is flat |
| `Indicators.RsiBounds` | screener.py:80 | whenever the RSI is defined it lies in [0, 100] |
| `Indicators.RsiHundred` | screener.py:79-80 | the RSI is exactly 100 iff `i >= 13`, the mean loss is 0 and the mean gain is positive |
| `Indicators.Alpha` | screener.py:82-83 | the `ewm(span=s)` factor `2/(s+1)` lies in (0, 1] |
| `Indicators.Ema` | screener.py:82-83 | each value of the `adjust=False` recurrence lies between the lowest and highest close so far |
| `Indicators.ConvexBetween` | screener.py:82-83 | one smoothing step of two values in [lo, hi] stays in [lo, hi] |
| `Indicators.Macd` | screener.py:84 | MACD is defined at every index, and bounded by the spread of the closes so far |
| `Indicators.EmaBelowLast` | screener.py:82-83 | on a non-decreasing series an EMA never exceeds the latest close |
| `Indicators.FasterStep` | screener.py:82-84 | one step keeps a faster average at or above a slower one when both are below the new close |
| `Indicators.FasterEmaAbove` | screener.py:82-84 | on a non-decreasing series the faster EMA is at or above the slower one at every index |
| `Indicators.MacdNonNegativeWhenRising` | screener.py:82-84 | on a non-decreasing series MACD is never negative |
| `Indicators.MacdOfConstant` | screener.py:82-84 | on a constant series both EMAs equal the price and MACD is 0 |
| `Frame.CompleteRows` | screener.py:86 | the rows `dropna` keeps: at most n, strictly ascending, each complete, and every complete row is among them |
| `Frame.PickKeepsOrder` | screener.py:86 | a strictly increasing date index stays strictly increasing after the filter |
| `Frame.DataFrame.constructor` | screener.py:58-61 | a frame whose columns all match the index length, holding exactly the given index and columns |
| `Frame.DataFrame.SetColumn` | screener.py:73-84 | assigning a column adds or replaces that one column and leaves the index and other columns unchanged |
| `Frame.DataFrame.DropNa` | screener.py:86 | the index and every column are cut to the complete rows, in order |
| `Screener.Augment` | screener.py:72-84 | the input columns are untouched, the four derived columns are added, all with the input length |
| `Screener.CalculateIndicators` | screener.py:72-87 | the frame is changed in place and returned; its index and columns become those of the augmented frame at the rows without NaN |
| `Screener.DerivedColumns` | screener.py:73-84 | the four derived columns are the moving averages, the RSI and the MACD of the closes |
| `Screener.CompleteIsRetained` | screener.py:74-86 | a row without NaN is retained: its index is at least 199 and its window is not flat |
| `Screener.RetainedIsComplete` | screener.py:73-86 | with NaN-free input columns, a retained row has no NaN in any column |
| `Screener.CompleteIffRetained` | screener.py:73-86 | with NaN-free input columns, a row has no NaN iff it is retained |
| `Screener.KeptRows` | screener.py:73-86 | the kept rows are at most the input rows, ascending, and are exactly the retained indices |
| `Screener.ShortSeriesEmpty` | screener.py:74-86 | fewer than 200 rows give an empty result, whatever the columns hold |
| `Screener.ConstantSeriesEmpty` | screener.py:76-86 | a constant close series gives an empty result at any length |
| `Screener.RisingRsiIsHundred` | screener.py:76-80 | on a strictly increasing series the RSI is 100 from index 13 on |
| `Screener.RowsFrom` | screener.py:86 | if exactly the rows from `lo` on are complete, `dropna` keeps the run lo..m-1 |
| `Screener.RisingCompleteFrom` | screener.py:73-86 | on a strictly increasing NaN-free series a row is complete iff its index is at least 199 |
| `Screener.RisingSeriesKeepsTail` | screener.py:73-86 | a strictly increasing NaN-free series of n >= 200 rows keeps rows 199..n-1 (n-199 rows), each with RSI 100 |
| `Screener.OutputRow` | screener.py:86 | each output row holds, in every column, the entry of the input row it came from |
| `Screener.KeptRowInputs` | screener.py:86 | the input columns of a kept row are unchanged |
| `Screener.KeptRowIndicators` | screener.py:73-86 | a kept row's indicators are those of the full series at its original index, so the EMAs are not restarted after filtering |
| `Screener.RisingScenario` | screener.py:73-86 | the 201 closes 100..300 keep exactly rows 199 and 200, both with RSI 100 |
| `Fetch.Classify` | screener.py:52-66 | rate-limited iff "Information" or "Note" is present; a series iff "Time Series (Daily)" is present and neither of those is; otherwise unavailable |
| `Fetch.RateLimitWins` | screener.py:52-57 | adding a rate-limit key always yields rate-limited, even beside a series, so the response is rejected |

## Left out

- `get_realtime_data`, `get_historical_data` (lines 15-28, 44-66) are not modelled apart from the key check: they do HTTP requests, JSON decoding and `print`.
- The `"Global Quote"` check of `get_realtime_data` (line 23) is left out together with that network call.
- `analyze_realtime_data` (lines 34-38) is left out: it only reshapes a frame for display.
- `main` (lines 93-123) is left out: stdin prompt, the API key, the 15-second sleep and table rendering are I/O.
- Building the frame from the payload (lines 58-61) is left out. This covers `astype(float)` parsing of decimal strings, date parsing and sorting. `Frame.DataFrame.constructor` takes an already built index and columns, and `Frame.Date` is a plain day number.
- Floating-point rounding is left out: all arithmetic is exact over `real`. This includes pandas' compensated rolling sums and the rounding of `100 - 100/(1+rs)`.
- Signed zero is left out. In IEEE arithmetic the negated zero mean loss is `-0.0`, so `gain/-0.0` is `-inf` rather than `+inf`. The RSI is still `100 - (-0.0) = 100`, and 0/-0.0 is still NaN, so the RSI values are the same.
- Screener.CalculateIndicators: requires the close column to be present and every close to be a number (`HasNumericClose`). The source raises on an input without a close column (line 73) or with non-numeric closes; that error path is not modelled. pandas' handling of NaN closes (shorter rolling counts, `ewm` NaN skipping) is not modelled, because parsed API data never holds one.
- Screener.KeptRows: the exact "kept iff retained" characterisation assumes the input columns hold no NaN. With NaN-bearing input columns only the general `Frame.CompleteRows` description of `dropna` applies. `ShortSeriesEmpty` and `ConstantSeriesEmpty` hold without this assumption.
- Column order is left out: `Frame.Columns` is a map, while pandas appends new columns at the end and keeps a reassigned one in place. Only the table rendering in `main` depends on that order.
- Idempotence of the engine is not stated as a lemma: the model is a function of its input, so two calls on equal input give equal output by construction.
