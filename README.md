# Stock trend analysis: the Close-column analytics

A model of the analytics of a small stock dashboard. When the user presses
"Fetch Data", the dashboard downloads a table of daily bars for one ticker.
If the table is empty it shows "no data" and stops. Otherwise it:

- attaches a 20-day trailing moving average (`MA20`) of the closing price;
- attaches a 20-day rolling sample standard deviation (`Volatility`), using
  divisor n - 1 as pandas does by default;
- computes the latest price, the change since the first close, the percent
  change and the latest volatility;
- cuts the trailing windows that the charts and tables show: 50 rows, 10 rows
  and the default 5;
- when there is more than one row, recomputes the change and percent change.

Prices are exact `real`s. A windowed column is a `seq<Option<real>>` aligned
with the price series. `None` stands for pandas' NaN at positions before
index w - 1.

Modules:

- `Wrappers` (wrappers.dfy): `Option` and `Result`.
- `Stats` (stats.dfy): sum, mean, squared deviations, sample variance and
  standard deviation, with their algebra.
- `Rolling` (rolling.dfy): the aligned moving-average and volatility columns
  for any window w.
- `Windows` (windows.dfy): `Tail`, pandas' `tail(n)`.
- `Dashboard` (dashboard.dfy): the analysis of one download, with the
  window fixed at 20.

The square root comes from the float library, so it is a parameter
`sqrt: real -> real`. Every member that uses it requires
`IsSquareRoot(sqrt)`: `sqrt(x)` is the exact non-negative root of every
non-negative `x`. This ties each volatility value to the sample variance of
its window without defining a square root in Dafny.

The source divides by the first close without a guard (stockanalysis.py:56).
In Python, float division by zero raises `ZeroDivisionError`, and the page
stops there. `Analyze` models this as `Failure(DivisionByZero)`.
`PercentChange` requires a non-zero first price. This applies to a one-row
table whose close is 0 as well, because `0.0 / 0.0` also raises. So the
claim that a single row always shows a percent change of 0 holds only when
that close is non-zero.

## Model

| member | source | states |
|---|---|---|
| `Stats.SquaredDeviations` | stockanalysis.py:52 | the sum of squared deviations from a centre is never negative |
| `Stats.SampleVariance` | stockanalysis.py:52 | the sample variance (divisor n - 1) of two or more prices is never negative |
| `Stats.StdDev` | stockanalysis.py:52 | the standard deviation is non-negative and its square is the sample variance |
| `Stats.MeanOfConstant` | stockanalysis.py:51 | the mean of a slice of equal prices c is c |
| `Stats.MeanWithinBounds` | stockanalysis.py:51 | the mean lies between any lower and upper bound of the prices |
| `Stats.SquaredDeviationsZero` | stockanalysis.py:52 | squared deviations from m are zero exactly when every price equals m |
| `Stats.SampleVarianceFormula` | stockanalysis.py:52 | with m the mean, the sample variance equals the computational formula (sum of squares - n * m^2) / (n - 1) |
| `Stats.SampleVarianceZeroIffFlat` | stockanalysis.py:52 | the sample variance is zero exactly when all prices in the slice are equal |
| `Stats.StdDevZeroIffFlat` | stockanalysis.py:52 | the standard deviation is zero exactly when all prices in the slice are equal |
| `Rolling.MovingAverage` | stockanalysis.py:51 | the column has the length of the series, is absent exactly before index w - 1, and from there holds the mean of the w closes ending at that index |
| `Rolling.Volatility` | stockanalysis.py:52 | the column has the length of the series, is absent exactly before index w - 1, and from there holds the non-negative root of the sample variance of the w closes ending there |
| `Rolling.MovingAverageDefinedCount` | stockanalysis.py:51 | a series of length L gets exactly max(0, L - w + 1) moving-average values |
| `Rolling.VolatilityDefinedCount` | stockanalysis.py:52 | a series of length L gets exactly max(0, L - w + 1) volatility values |
| `Rolling.VolatilityAlignedWithMovingAverage` | stockanalysis.py:51-52 | volatility and moving average are defined at exactly the same positions |
| `Rolling.MovingAverageStep` | stockanalysis.py:51 | each defined moving average is the previous one plus (incoming - outgoing price) / w |
| `Rolling.MovingAverageWithinRange` | stockanalysis.py:51 | when a window's prices lie in [lo, hi], so does its moving average |
| `Rolling.MovingAverageOfFlatWindow` | stockanalysis.py:51 | a window of equal prices c has moving average c |
| `Rolling.VolatilityZeroIffFlatWindow` | stockanalysis.py:52 | a defined volatility is 0 exactly when all prices of its window are equal |
| `Rolling.FivePriceExample` | stockanalysis.py:51 | closes 100, 110, 90, 120, 130 with window 2 give absent, 105, 100, 105, 125 |
| `Windows.Tail` | stockanalysis.py:85-86 | `tail(n)` has min(n, L) rows, and they are the last rows of the table in their original order |
| `Windows.TailOfShort` | stockanalysis.py:115 | asking for at least as many rows as the table has returns the table unchanged |
| `Windows.TailIsSuffix` | stockanalysis.py:110 | the dropped rows followed by the tail make up the whole table |
| `Windows.TailOfTail` | stockanalysis.py:95 | the last 10 rows are the last 10 of the last 50 rows |
| `Dashboard.AddColumns` | stockanalysis.py:51-52 | attaching the columns keeps every row's date and close, and keeps the row count |
| `Dashboard.PercentChange` | stockanalysis.py:56 | the percent change times the first price is 100 times the change |
| `Dashboard.PercentChangeRestoresLatest` | stockanalysis.py:54-56 | growing the first price by the percent change gives back the latest price |
| `Dashboard.Analyze` | stockanalysis.py:47-56 | the analysis stops with EmptySeries exactly on an empty table, and with DivisionByZero exactly when the first close is 0 |
| `Dashboard.FrameColumns` | stockanalysis.py:51-52 | row k has MA20 and Volatility exactly when k >= 19: the mean of the 20 closes ending at k, and the root of their sample variance |
| `Dashboard.SummaryValues` | stockanalysis.py:53-56 | the latest price is the last close, the change is last minus first close, the percent change is that change against the first close, and the latest volatility is the last row's |
| `Dashboard.LatestVolatilityDefined` | stockanalysis.py:60 | the volatility shown is absent exactly when there are fewer than 20 rows, and is otherwise the root of the sample variance of the last 20 closes |
| `Dashboard.SingleRowSummary` | stockanalysis.py:53-56 | a one-row table with a non-zero close shows change 0, percent change 0, no volatility and no second half |
| `Dashboard.RecomputationAgrees` | stockanalysis.py:97-103 | the recomputation runs exactly for more than one row and gives the same change and percent change as the summary |
| `Dashboard.ClosesOfTail` | stockanalysis.py:110 | the closes of the last n rows are the last n closes |
| `Dashboard.TrailingWindows` | stockanalysis.py:85-95 | the trend window is the last min(50, L) rows of the table, in order, and the 10-row table is the last 10 of them |
| `Dashboard.DetailWindows` | stockanalysis.py:108-115 | for more than one row, the second half plots the same closes as the trend window and lists the last min(5, L) rows, in order |
| `Dashboard.FlatSeries` | stockanalysis.py:51-60 | at least 20 equal closes c give MA20 c and volatility 0 at the last row |
| `Dashboard.TrendRowsAreMostRecent` | stockanalysis.py:85-86 | with ascending dates, every row left out of the trend window is older than every row in it |

## Left out

- Page setup, CSS, title, text and date inputs, the button, spinner, metrics, charts and `st.stop`. These are presentation. The model returns what they would show.
- The five-minute auto-refresh timer. It only re-triggers the page.
- The download from the quote provider. The model takes the downloaded bars as its input.
- The flattening of the provider's multi-level column names. It only adapts the table's shape.
- The Open, High, Low, Adj Close and Volume columns. They pass through `tail` unchanged and no analytic reads them. A row keeps only its date, close and the two attached columns.
- Calendar dates. A date is a day number.
- All plotting (plotly and matplotlib), date formatters, tick rotation, `highlight_max` styling and `:.2f` formatting. These are foreign library calls or presentation.
- IEEE floating point. Rounding, NaN inputs, NaN propagation inside rolling windows and infinities are not modelled, because prices are exact reals. A non-zero result that pandas would show where float rounding leaves a flat window slightly uneven is not modelled either.
- Square root. There is no square root in Dafny's reals, so `Stats.StdDev`, `Rolling.Volatility`, `Dashboard.AddColumns` and `Dashboard.Analyze` take the library's `sqrt` as a parameter and require it to be exact.
