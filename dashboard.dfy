/**
 * The analysis run when the dashboard's "Fetch Data" button is pressed: stop
 * on an empty download, attach the 20-day moving average and volatility
 * columns, compute the endpoint summary (latest price, change, percent
 * change, latest volatility), cut the trailing windows the charts and tables
 * show, and, for more than one row, recompute the change figures.
 */
module Dashboard {
  import opened Wrappers
  import opened Stats
  import opened Rolling
  import opened Windows

  /** Window of the moving average and of the volatility (`rolling(window=20)`). */
  const Window: nat := 20
  /** Rows in the trend charts (`tail(50)`, `window = 50`). */
  const TrendRows: nat := 50
  /** Rows in the first data table (`tail(10)`). */
  const TableRows: nat := 10
  /** Rows returned by `tail()` without an argument. */
  const DefaultTailRows: nat := 5

  /** One downloaded trading day: its date (as a day number) and its closing price. */
  datatype Bar = Bar(date: int, close: real)

  /** A row of the analysed table: the bar plus the two attached columns. */
  datatype Row = Row(date: int, close: real, ma20: Option<real>, volatility: Option<real>)

  /** The three metrics at the top of the dashboard. */
  datatype Summary = Summary(
    latestPrice: real,
    firstPrice: real,
    change: real,
    pctChange: real,
    latestVolatility: Option<real>)

  /** What the second half of the page shows for a table of more than one row. */
  datatype Detail = Detail(change: real, pctChange: real, trendCloses: seq<real>, lastRows: seq<Row>)

  /** Everything the dashboard derives from one download. */
  datatype Report = Report(
    frame: seq<Row>,
    summary: Summary,
    trendRows: seq<Row>,
    tableRows: seq<Row>,
    detail: Option<Detail>)

  /** Why the analysis stops: no rows downloaded, or a first close of zero divided by. */
  datatype AnalysisError = EmptySeries | DivisionByZero

  /** The Close column. */
  function Closes(bars: seq<Bar>): (cs: seq<real>)
    ensures |cs| == |bars|
    ensures forall k :: 0 <= k < |bars| ==> cs[k] == bars[k].close
  {
    seq(|bars|, k requires 0 <= k < |bars| => bars[k].close)
  }

  /** The Close column of analysed rows. */
  function RowCloses(rows: seq<Row>): (cs: seq<real>)
    ensures |cs| == |rows|
    ensures forall k :: 0 <= k < |rows| ==> cs[k] == rows[k].close
  {
    seq(|rows|, k requires 0 <= k < |rows| => rows[k].close)
  }

  /** The download with the MA20 and Volatility columns attached, row for row. */
  function AddColumns(bars: seq<Bar>, sqrt: real -> real): (frame: seq<Row>)
    requires IsSquareRoot(sqrt)
    ensures |frame| == |bars|
    ensures forall k :: 0 <= k < |bars| ==>
              frame[k].date == bars[k].date && frame[k].close == bars[k].close
  {
    var ma := MovingAverage(Closes(bars), Window);
    var vol := Volatility(Closes(bars), Window, sqrt);
    seq(|bars|, k requires 0 <= k < |bars| => Row(bars[k].date, bars[k].close, ma[k], vol[k]))
  }

  /**
   * Change as a percentage of the first price, `change / first * 100`.
   * The source divides unguarded; here a zero first price is the caller's error.
   */
  function PercentChange(first: real, change: real): (pct: real)
    requires first != 0.0
    ensures pct * first == change * 100.0
  {
    change / first * 100.0
  }

  /** Applying the percent change to the first price gives back the latest price. */
  lemma PercentChangeRestoresLatest(first: real, latest: real)
    requires first != 0.0
    ensures first + first * PercentChange(first, latest - first) / 100.0 == latest
  {
  }

  /** The whole analysis of one download. */
  function Analyze(bars: seq<Bar>, sqrt: real -> real): (r: Result<Report, AnalysisError>)
    requires IsSquareRoot(sqrt)
    ensures r == Failure(EmptySeries) <==> |bars| == 0
    ensures r == Failure(DivisionByZero) <==> |bars| > 0 && bars[0].close == 0.0
  {
    if |bars| == 0 then Failure(EmptySeries)
    else
      var frame := AddColumns(bars, sqrt);
      var latest := bars[|bars| - 1].close;
      var first := bars[0].close;
      var change := latest - first;
      if first == 0.0 then Failure(DivisionByZero)
      else
        var summary := Summary(latest, first, change, PercentChange(first, change), frame[|frame| - 1].volatility);
        var detail :=
          if |bars| > 1 then
            Some(Detail(latest - first, (latest - first) / first * 100.0,
                        Tail(RowCloses(frame), TrendRows), Tail(frame, DefaultTailRows)))
          else None;
        Success(Report(frame, summary, Tail(frame, TrendRows), Tail(frame, TableRows), detail))
  }

  /** The attached columns are the rolling mean and rolling deviation of the Close column. */
  lemma FrameColumns(bars: seq<Bar>, sqrt: real -> real, k: int)
    requires IsSquareRoot(sqrt)
    requires 0 <= k < |bars|
    ensures AddColumns(bars, sqrt)[k].ma20.Some? <==> Window - 1 <= k
    ensures AddColumns(bars, sqrt)[k].volatility.Some? <==> Window - 1 <= k
    ensures Window - 1 <= k ==>
              AddColumns(bars, sqrt)[k].ma20.value == Mean(Trailing(Closes(bars), k, Window))
    ensures Window - 1 <= k ==>
              IsRootOf(AddColumns(bars, sqrt)[k].volatility.value,
                       SampleVariance(Trailing(Closes(bars), k, Window)))
  {
  }

  /** The summary metrics of a successful analysis. */
  lemma SummaryValues(bars: seq<Bar>, sqrt: real -> real)
    requires IsSquareRoot(sqrt)
    requires |bars| > 0 && bars[0].close != 0.0
    ensures Analyze(bars, sqrt).Success?
    ensures var s := Analyze(bars, sqrt).value.summary;
      && s.latestPrice == bars[|bars| - 1].close
      && s.firstPrice == bars[0].close
      && s.change == s.latestPrice - s.firstPrice
      && s.pctChange == PercentChange(s.firstPrice, s.change)
      && s.latestVolatility == Analyze(bars, sqrt).value.frame[|bars| - 1].volatility
  {
  }

  /** The volatility shown is absent exactly when there are fewer than 20 rows. */
  lemma LatestVolatilityDefined(bars: seq<Bar>, sqrt: real -> real)
    requires IsSquareRoot(sqrt)
    requires |bars| > 0 && bars[0].close != 0.0
    ensures var s := Analyze(bars, sqrt).value.summary;
      && (s.latestVolatility.Some? <==> |bars| >= Window)
      && (|bars| >= Window ==>
            IsRootOf(s.latestVolatility.value, SampleVariance(Closes(bars)[|bars| - Window..])))
  {
    FrameColumns(bars, sqrt, |bars| - 1);
    if |bars| >= Window {
      assert Trailing(Closes(bars), |bars| - 1, Window) == Closes(bars)[|bars| - Window..];
    }
  }

  /** A single-row download shows no change, no percent change and no volatility. */
  lemma SingleRowSummary(bar: Bar, sqrt: real -> real)
    requires IsSquareRoot(sqrt)
    requires bar.close != 0.0
    ensures var rep := Analyze([bar], sqrt).value;
      && rep.summary.change == 0.0
      && rep.summary.pctChange == 0.0
      && rep.summary.latestVolatility == None
      && rep.detail == None
  {
  }

  /** The recomputation for more than one row shows the same change figures as the summary. */
  lemma RecomputationAgrees(bars: seq<Bar>, sqrt: real -> real)
    requires IsSquareRoot(sqrt)
    requires |bars| > 0 && bars[0].close != 0.0
    ensures var rep := Analyze(bars, sqrt).value;
      && (rep.detail.Some? <==> |bars| > 1)
      && (rep.detail.Some? ==>
            rep.detail.value.change == rep.summary.change
            && rep.detail.value.pctChange == rep.summary.pctChange)
  {
  }

  /** The closing prices of the last n rows are the last n closing prices. */
  lemma ClosesOfTail(rows: seq<Row>, n: nat)
    ensures RowCloses(Tail(rows, n)) == Tail(RowCloses(rows), n)
  {
    var a, b := RowCloses(Tail(rows, n)), Tail(RowCloses(rows), n);
    assert |a| == |b|;
    forall k | 0 <= k < |a| ensures a[k] == b[k] {
      assert a[k] == Tail(rows, n)[k].close;
    }
  }

  /** How a successful report is assembled from the analysed table. */
  lemma ReportParts(bars: seq<Bar>, sqrt: real -> real)
    requires IsSquareRoot(sqrt)
    requires |bars| > 0 && bars[0].close != 0.0
    ensures var rep, frame := Analyze(bars, sqrt).value, AddColumns(bars, sqrt);
      && rep.frame == frame
      && rep.trendRows == Tail(frame, TrendRows)
      && rep.tableRows == Tail(frame, TableRows)
      && (rep.detail.Some? <==> |bars| > 1)
      && (rep.detail.Some? ==>
            rep.detail.value.trendCloses == Tail(RowCloses(frame), TrendRows)
            && rep.detail.value.lastRows == Tail(frame, DefaultTailRows))
  {
  }

  /**
   * The trailing windows at the top of the page: the trend chart's last
   * min(50, L) rows, and the table's last min(10, L) rows, which are also the
   * last rows of the trend window.
   */
  lemma TrailingWindows(bars: seq<Bar>, sqrt: real -> real)
    requires IsSquareRoot(sqrt)
    requires |bars| > 0 && bars[0].close != 0.0
    ensures var rep := Analyze(bars, sqrt).value;
      && |rep.trendRows| == (if |bars| < TrendRows then |bars| else TrendRows)
      && rep.trendRows == rep.frame[|bars| - |rep.trendRows|..]
      && rep.tableRows == Tail(rep.trendRows, TableRows)
  {
    var frame := AddColumns(bars, sqrt);
    ReportParts(bars, sqrt);
    TailOfTail(frame, TableRows, TrendRows);
    TailIsSuffix(frame, TrendRows);
  }

  /**
   * The trailing windows of the second half of the page: the same 50 closing
   * prices as the trend chart, and the last min(5, L) rows.
   */
  lemma DetailWindows(bars: seq<Bar>, sqrt: real -> real)
    requires IsSquareRoot(sqrt)
    requires |bars| > 1 && bars[0].close != 0.0
    ensures var rep := Analyze(bars, sqrt).value;
      && rep.detail.Some?
      && rep.detail.value.trendCloses == RowCloses(rep.trendRows)
      && rep.detail.value.lastRows == rep.frame[|bars| - |rep.detail.value.lastRows|..]
      && |rep.detail.value.lastRows| == (if |bars| < DefaultTailRows then |bars| else DefaultTailRows)
  {
    var frame := AddColumns(bars, sqrt);
    ReportParts(bars, sqrt);
    ClosesOfTail(frame, TrendRows);
    TailIsSuffix(frame, DefaultTailRows);
  }

  /**
   * A download of at least 20 equal closing prices c shows a 20-day average of
   * c and a volatility of 0 at its last row.
   */
  lemma FlatSeries(bars: seq<Bar>, sqrt: real -> real, c: real)
    requires IsSquareRoot(sqrt)
    requires |bars| >= Window
    requires forall k :: 0 <= k < |bars| ==> bars[k].close == c
    ensures var frame := AddColumns(bars, sqrt);
      && frame[|bars| - 1].ma20 == Some(c)
      && frame[|bars| - 1].volatility == Some(0.0)
  {
    var cs, last := Closes(bars), |bars| - 1;
    var frame := AddColumns(bars, sqrt);
    MovingAverageOfFlatWindow(cs, Window, last, c);
    VolatilityZeroIffFlatWindow(cs, Window, sqrt, last);
    FrameColumns(bars, sqrt, last);
    assert frame[last].ma20 == MovingAverage(cs, Window)[last];
    assert frame[last].volatility == Volatility(cs, Window, sqrt)[last];
  }

  /**
   * With dates strictly ascending, as the download's index is, the trend window
   * holds the most recent days: every row it leaves out is older than every row
   * it keeps.
   */
  lemma TrendRowsAreMostRecent(bars: seq<Bar>, sqrt: real -> real)
    requires IsSquareRoot(sqrt)
    requires |bars| > 0 && bars[0].close != 0.0
    requires forall j, k :: 0 <= j < k < |bars| ==> bars[j].date < bars[k].date
    ensures var rep := Analyze(bars, sqrt).value;
      forall j, k :: 0 <= j < |bars| - |rep.trendRows| && 0 <= k < |rep.trendRows| ==>
        rep.frame[j].date < rep.trendRows[k].date
  {
    var rep := Analyze(bars, sqrt).value;
    var frame := AddColumns(bars, sqrt);
    ReportParts(bars, sqrt);
    var d := |bars| - |rep.trendRows|;
    forall j, k | 0 <= j < d && 0 <= k < |rep.trendRows|
      ensures rep.frame[j].date < rep.trendRows[k].date
    {
      assert rep.trendRows[k] == frame[d + k];
    }
  }
}
