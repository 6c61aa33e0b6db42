/**
  The comparison route (`POST /forecast-comparison`): for one calendar month,
  one line per requested year holding that month's daily series, optionally one
  more line with the model's predictions for the month of a given year, and a
  per-line summary (sum, mean, max, min, count).
*/
module Comparison {
  import opened Wrappers
  import opened Series
  import opened SharedState
  import Calendar
  import Forecasting

  /** `month` is validated to 1..12 before the route runs; `forecastYear` is `include_forecast_year`. */
  datatype ComparisonRequest = ComparisonRequest(month: int, years: seq<int>, forecastYear: Option<int>)

  /** The name of a line: `str(year)` for history, `"<year> (Forecast)"` for the prediction. */
  datatype Label = YearLabel(year: int) | ForecastLabel(year: int)

  /**
    A line of the figure and the frame behind it (`month_data` or
    `forecast_data`): its rows of (date, spend), plotted at DayOfMonth(date).
  */
  datatype Trace = Trace(name: Label, rows: seq<Row>, color: string, dash: string)

  const Colors: seq<string> := ["blue", "green", "orange", "purple", "red", "brown", "pink", "gray"]
  const LineStyles: seq<string> := ["solid", "dash", "dot", "dashdot"]

  /** The `day` column, `transaction_date.dt.day`: the x coordinate of a row. */
  function DayOfMonth(d: Date): int {
    Calendar.Civil(d).day
  }

  // ---------------------------------------------------------------------------
  // The month window

  /** A set of days all between lo and hi has at most hi - lo + 1 members. */
  lemma {:induction false} BoundedSetSize(days: set<int>, lo: int, hi: int)
    requires forall d :: d in days ==> lo <= d <= hi
    ensures |days| <= if lo <= hi then hi - lo + 1 else 0
    decreases hi - lo
  {
    if hi < lo {
      assert forall d :: d !in days;
      assert days == {};
    } else {
      var rest := days - {hi};
      BoundedSetSize(rest, lo, hi - 1);
      assert days <= rest + {hi};
    }
  }

  /** The mask `start_date <= transaction_date <= end_date` for the month of a year. */
  function InMonth(year: int, month: int): Row -> bool
    requires 1 <= month <= 12
  {
    var first, last := Calendar.FirstOfMonth(year, month), Calendar.LastOfMonth(year, month);
    (x: Row) => first <= x.date <= last
  }

  /** `month_data`: the rows of the series dated within the month of a year, in series order. */
  function MonthRows(series: seq<Row>, year: int, month: int): seq<Row>
    requires 1 <= month <= 12
  {
    Filter(series, InMonth(year, month))
  }

  /**
    A row is selected for a year exactly when its date lies between the first
    and the last day of the month; its day number is its offset from the first
    day plus one, so between 1 and the month's length; and a series with one
    row per date yields at most that many rows.
  */
  lemma MonthRowsDays(series: seq<Row>, year: int, month: int)
    requires 1 <= month <= 12
    ensures forall x :: x in MonthRows(series, year, month) <==>
              x in series && Calendar.FirstOfMonth(year, month) <= x.date <= Calendar.LastOfMonth(year, month)
    ensures forall x :: x in MonthRows(series, year, month) ==>
              && DayOfMonth(x.date) == x.date - Calendar.FirstOfMonth(year, month) + 1
              && 1 <= DayOfMonth(x.date) <= Calendar.DaysInMonth(year, month)
    ensures UniqueDates(series) ==> |MonthRows(series, year, month)| <= Calendar.DaysInMonth(year, month)
  {
    var rows := MonthRows(series, year, month);
    var first, last := Calendar.FirstOfMonth(year, month), Calendar.LastOfMonth(year, month);
    forall x | x in rows
      ensures DayOfMonth(x.date) == x.date - first + 1
    {
      Calendar.DayOfMonthInWindow(year, month, x.date);
    }
    if UniqueDates(series) {
      FilterUnique(series, InMonth(year, month));
      UniqueDateCount(rows);
      BoundedSetSize(DateSet(rows), first, last);
    }
  }

  // ---------------------------------------------------------------------------
  // Lines

  /** The line of the i-th requested year, styled by i whether or not earlier years were skipped. */
  function YearTrace(series: seq<Row>, month: int, year: int, i: nat): Trace
    requires 1 <= month <= 12
  {
    Trace(YearLabel(year), MonthRows(series, year, month), Colors[i % |Colors|], LineStyles[i % |LineStyles|])
  }

  /** The lines added by the loop over `enumerate(years)`: years with no rows in the month add none. */
  function HistoricalTraces(series: seq<Row>, month: int, years: seq<int>): seq<Trace>
    requires 1 <= month <= 12
    decreases |years|
  {
    if years == [] then []
    else
      var i := |years| - 1;
      var prev := HistoricalTraces(series, month, years[..i]);
      if |MonthRows(series, years[i], month)| > 0 then prev + [YearTrace(series, month, years[i], i)] else prev
  }

  /**
    Every historical line is the styled line of some requested year, styled by
    that year's position, and has rows: years with no rows add nothing.
  */
  lemma {:induction false} HistoricalTracesSound(series: seq<Row>, month: int, years: seq<int>)
    requires 1 <= month <= 12
    ensures |HistoricalTraces(series, month, years)| <= |years|
    ensures forall t :: t in HistoricalTraces(series, month, years) ==>
              t.rows != [] && t.name.YearLabel? &&
              exists i :: 0 <= i < |years| && t == YearTrace(series, month, years[i], i)
  {
    if years != [] {
      var n := |years| - 1;
      var prefix := years[..n];
      HistoricalTracesSound(series, month, prefix);
      var prev := HistoricalTraces(series, month, prefix);
      forall t | t in prev
        ensures exists i :: 0 <= i < |years| && t == YearTrace(series, month, years[i], i)
      {
        var i :| 0 <= i < |prefix| && t == YearTrace(series, month, prefix[i], i);
        assert prefix[i] == years[i];
      }
    }
  }

  /** Every requested year whose month has rows has its line. */
  lemma {:induction false} HistoricalTracesComplete(series: seq<Row>, month: int, years: seq<int>)
    requires 1 <= month <= 12
    ensures forall i :: 0 <= i < |years| && MonthRows(series, years[i], month) != [] ==>
              YearTrace(series, month, years[i], i) in HistoricalTraces(series, month, years)
  {
    if years != [] {
      var n := |years| - 1;
      var prefix := years[..n];
      HistoricalTracesComplete(series, month, prefix);
      var prev := HistoricalTraces(series, month, prefix);
      var h := HistoricalTraces(series, month, years);
      assert forall t :: t in prev ==> t in h;
      forall i | 0 <= i < n && MonthRows(series, years[i], month) != []
        ensures YearTrace(series, month, years[i], i) in h
      {
        assert prefix[i] == years[i];
      }
    }
  }

  /**
    `pd.date_range(start_date, end_date, freq='D')` for the month of a year:
    one date per day of the month, the k-th being the first of the month plus k.
  */
  function MonthDays(year: int, month: int): (dates: seq<Date>)
    requires 1 <= month <= 12
    ensures |dates| == Calendar.DaysInMonth(year, month)
    ensures forall k :: 0 <= k < |dates| ==> dates[k] == Calendar.FirstOfMonth(year, month) + k
  {
    var dates := Forecasting.DateRange(Calendar.FirstOfMonth(year, month), Calendar.LastOfMonth(year, month));
    MonthDaysOffsets(dates, Calendar.FirstOfMonth(year, month));
    dates
  }

  lemma MonthDaysOffsets(dates: seq<Date>, first: Date)
    requires dates != [] ==> dates[0] == first
    requires forall k :: 0 <= k < |dates| - 1 ==> dates[k + 1] == dates[k] + 1
    ensures forall k :: 0 <= k < |dates| ==> dates[k] == first + k
  {
    forall k | 0 <= k < |dates| ensures dates[k] == first + k {
      Forecasting.ConsecutiveGap(dates, 0, k);
    }
  }

  /** The forecast line for the month of a year: `predict` over its days, in red dash-dot, named `"<year> (Forecast)"`. */
  function ForecastTrace(predict: Date -> Prediction, year: int, month: int): Trace
    requires 1 <= month <= 12
  {
    Trace(ForecastLabel(year), Forecasting.ForecastRows(MonthDays(year, month), predict), "red", "dashdot")
  }

  /**
    The forecast line has one row per day of the month: the k-th is the first
    of the month plus k, carries the model's `yhat` for it, and is plotted at
    day k + 1.
  */
  lemma ForecastTraceDays(predict: Date -> Prediction, year: int, month: int)
    requires 1 <= month <= 12
    ensures |ForecastTrace(predict, year, month).rows| == Calendar.DaysInMonth(year, month)
    ensures forall k :: 0 <= k < |ForecastTrace(predict, year, month).rows| ==>
              var x := ForecastTrace(predict, year, month).rows[k];
              && x.date == Calendar.FirstOfMonth(year, month) + k
              && x.amount == predict(x.date).yhat
              && DayOfMonth(x.date) == k + 1
  {
    var rows := ForecastTrace(predict, year, month).rows;
    forall k | 0 <= k < |rows| ensures DayOfMonth(rows[k].date) == k + 1 {
      Calendar.DayOfMonthInWindow(year, month, rows[k].date);
    }
  }

  // ---------------------------------------------------------------------------
  // Summary

  predicate AllHaveRows(traces: seq<Trace>) {
    forall k :: 0 <= k < |traces| ==> traces[k].rows != []
  }

  /** The `summary` dict, filled line by line, a later line overwriting an earlier one of the same name. */
  function SummaryOf(traces: seq<Trace>): map<Label, Stats>
    requires AllHaveRows(traces)
    decreases |traces|
  {
    if traces == [] then map[]
    else
      var last := traces[|traces| - 1];
      SummaryOf(traces[..|traces| - 1])[last.name := StatsOf(Amounts(last.rows))]
  }

  /** The summary has one entry per line name. */
  lemma {:induction false} SummaryKeys(traces: seq<Trace>)
    requires AllHaveRows(traces)
    ensures SummaryOf(traces).Keys == set t | t in traces :: t.name
    decreases |traces|
  {
    if traces != [] {
      var n := |traces| - 1;
      var prefix := traces[..n];
      SummaryKeys(prefix);
      assert traces == prefix + [traces[n]];
    }
  }

  /** The entry of a name describes the last line of that name: later lines overwrite earlier ones. */
  lemma {:induction false} SummaryLastWins(traces: seq<Trace>)
    requires AllHaveRows(traces)
    ensures forall j :: 0 <= j < |traces| && (forall k :: j < k < |traces| ==> traces[k].name != traces[j].name) ==>
              traces[j].name in SummaryOf(traces) &&
              SummaryOf(traces)[traces[j].name] == StatsOf(Amounts(traces[j].rows))
    decreases |traces|
  {
    if traces != [] {
      var n := |traces| - 1;
      var prefix := traces[..n];
      SummaryLastWins(prefix);
      var last := traces[n];
      assert AllHaveRows(prefix);
      assert SummaryOf(traces) == SummaryOf(prefix)[last.name := StatsOf(Amounts(last.rows))];
      forall j | 0 <= j < |traces| && (forall k :: j < k < |traces| ==> traces[k].name != traces[j].name)
        ensures traces[j].name in SummaryOf(traces)
        ensures SummaryOf(traces)[traces[j].name] == StatsOf(Amounts(traces[j].rows))
      {
        if j < n {
          assert prefix[j] == traces[j];
          assert forall k :: j < k < n ==> prefix[k].name != prefix[j].name by {
            forall k | j < k < n ensures prefix[k].name != prefix[j].name {
              assert prefix[k] == traces[k];
            }
          }
          assert last.name != traces[j].name;
        }
      }
    }
  }

  /** Every entry describes some line of its name. */
  lemma {:induction false} SummaryFromLines(traces: seq<Trace>)
    requires AllHaveRows(traces)
    ensures forall l :: l in SummaryOf(traces) ==>
              exists t :: t in traces && t.name == l && t.rows != [] && SummaryOf(traces)[l] == StatsOf(Amounts(t.rows))
    decreases |traces|
  {
    if traces != [] {
      var n := |traces| - 1;
      var prefix := traces[..n];
      SummaryFromLines(prefix);
      var last := traces[n];
      assert AllHaveRows(prefix);
      assert SummaryOf(traces) == SummaryOf(prefix)[last.name := StatsOf(Amounts(last.rows))];
      forall l | l in SummaryOf(traces)
        ensures exists t :: t in traces && t.name == l && t.rows != [] && SummaryOf(traces)[l] == StatsOf(Amounts(t.rows))
      {
        if l == last.name {
          assert last in traces;
        } else {
          assert l in SummaryOf(prefix);
          var t :| t in prefix && t.name == l && t.rows != [] && SummaryOf(prefix)[l] == StatsOf(Amounts(t.rows));
          assert t in traces;
        }
      }
    }
  }

  /**
    The summary entry of one line: `days_with_data` is its row count,
    `total_sales` its spend, and the mean lies between the extremes.
  */
  lemma LineStats(t: Trace)
    requires t.rows != []
    ensures var st := StatsOf(Amounts(t.rows));
            && st.count == |t.rows|
            && st.total == Total(t.rows)
            && st.min <= st.mean <= st.max
            && st.total == st.mean * st.count as real
  {
    SumOfAmounts(t.rows);
  }

  // ---------------------------------------------------------------------------
  // The route

  /** What the route builds: the lines of the figure and the summary computed beside them. */
  datatype ComparisonResult = ComparisonResult(traces: seq<Trace>, summary: map<Label, Stats>)

  /** `if request.include_forecast_year and state.global_model is not None`: year 0 counts as absent. */
  predicate WantsForecast(req: ComparisonRequest, model: Option<Model>) {
    req.forecastYear.Some? && req.forecastYear.value != 0 && model.Some?
  }

  /** The lines of the figure: the historical ones, then the forecast line when it is wanted and possible. */
  function Lines(series: seq<Row>, model: Option<Model>, req: ComparisonRequest): (lines: seq<Trace>)
    requires 1 <= req.month <= 12
    ensures AllHaveRows(lines)
  {
    var hist := HistoricalTraces(series, req.month, req.years);
    HistoricalTracesSound(series, req.month, req.years);
    assert forall k :: 0 <= k < |hist| ==> hist[k] in hist;
    if WantsForecast(req, model) && model.value.Fitted? then
      hist + [ForecastTrace(model.value.predict, req.forecastYear.value, req.month)]
    else hist
  }

  /**
    The result for an uploaded series: a wanted forecast line from a model
    whose fit failed makes `predict` raise inside the `try` (500); otherwise
    the lines and their summary.
  */
  function ComparisonOf(series: seq<Row>, model: Option<Model>, req: ComparisonRequest): Result<ComparisonResult, Error>
    requires 1 <= req.month <= 12
  {
    if WantsForecast(req, model) && model.value.Unfit? then Failure(Failed(ComparisonRoute, ModelNotFit))
    else
      var lines := Lines(series, model, req);
      Success(ComparisonResult(lines, SummaryOf(lines)))
  }

  /**
    A forecast line is present exactly when it was wanted (a year other than 0
    and a model) and the model is fitted; it is then the last line, named for
    the requested year, with one row per day of the month.
  */
  lemma LinesForecast(series: seq<Row>, model: Option<Model>, req: ComparisonRequest)
    requires 1 <= req.month <= 12
    ensures (exists t :: t in Lines(series, model, req) && t.name.ForecastLabel?)
            <==> WantsForecast(req, model) && model.value.Fitted?
    ensures forall t :: t in Lines(series, model, req) && t.name.ForecastLabel? ==>
              && t == Lines(series, model, req)[|Lines(series, model, req)| - 1]
              && t.name == ForecastLabel(req.forecastYear.value)
              && |t.rows| == Calendar.DaysInMonth(req.forecastYear.value, req.month)
  {
    var hist := HistoricalTraces(series, req.month, req.years);
    HistoricalTracesSound(series, req.month, req.years);
    if WantsForecast(req, model) && model.value.Fitted? {
      var lines := Lines(series, model, req);
      assert lines[|hist|] in lines && lines[|hist|].name.ForecastLabel?;
      assert forall t :: t in lines ==> t in hist || t == lines[|hist|];
    }
  }

  /** On a series with one row per date, no line has more rows than its month has days. */
  lemma LinesBounded(series: seq<Row>, model: Option<Model>, req: ComparisonRequest)
    requires 1 <= req.month <= 12
    requires UniqueDates(series)
    ensures forall t :: t in Lines(series, model, req) ==> |t.rows| <= Calendar.DaysInMonth(t.name.year, req.month)
  {
    var hist := HistoricalTraces(series, req.month, req.years);
    HistoricalTracesSound(series, req.month, req.years);
    forall t | t in hist ensures |t.rows| <= Calendar.DaysInMonth(t.name.year, req.month) {
      var i :| 0 <= i < |req.years| && t == YearTrace(series, req.month, req.years[i], i);
      MonthRowsDays(series, req.years[i], req.month);
    }
    LinesForecast(series, model, req);
  }

  /** When every line has at most as many rows as its year's month has days, so has every summary count. */
  lemma SummaryCounts(traces: seq<Trace>, month: int)
    requires 1 <= month <= 12
    requires AllHaveRows(traces)
    requires forall t :: t in traces ==> |t.rows| <= Calendar.DaysInMonth(t.name.year, month)
    ensures forall l :: l in SummaryOf(traces) ==> SummaryOf(traces)[l].count <= Calendar.DaysInMonth(l.year, month)
  {
    SummaryFromLines(traces);
  }

  /**
    The summary of a successful comparison has one entry per line name; each
    entry is the statistics (count, total, mean, min, max, as StatsOf states
    them) of a line of that name; and on a series with one row per date no
    entry counts more days than its month has.
  */
  lemma ComparisonSummary(series: seq<Row>, model: Option<Model>, req: ComparisonRequest)
    requires 1 <= req.month <= 12
    ensures ComparisonOf(series, model, req).Success? ==>
              var c := ComparisonOf(series, model, req).value;
              && c.summary.Keys == (set t | t in c.traces :: t.name)
              && (forall l :: l in c.summary ==>
                    exists t :: t in c.traces && t.name == l && t.rows != [] && c.summary[l] == StatsOf(Amounts(t.rows)))
              && (UniqueDates(series) ==>
                    forall l :: l in c.summary ==> c.summary[l].count <= Calendar.DaysInMonth(l.year, req.month))
  {
    if ComparisonOf(series, model, req).Success? {
      var lines := Lines(series, model, req);
      assert ComparisonOf(series, model, req).value == ComparisonResult(lines, SummaryOf(lines));
      SummaryKeys(lines);
      SummaryFromLines(lines);
      if UniqueDates(series) {
        LinesBounded(series, model, req);
        SummaryCounts(lines, req.month);
      }
    }
  }

  /** HistoricalTraces unfolded at the i-th year. */
  lemma HistoricalStep(series: seq<Row>, month: int, years: seq<int>, i: nat)
    requires 1 <= month <= 12 && i < |years|
    ensures HistoricalTraces(series, month, years[..i + 1]) ==
            if |MonthRows(series, years[i], month)| > 0
            then HistoricalTraces(series, month, years[..i]) + [YearTrace(series, month, years[i], i)]
            else HistoricalTraces(series, month, years[..i])
  {
    assert years[..i + 1][..i] == years[..i] && years[..i + 1][i] == years[i];
  }

  /** The loop over `enumerate(years)`: one line per year whose month has rows, styled by the year's position. */
  method HistoricalLines(series: seq<Row>, month: int, years: seq<int>) returns (traces: seq<Trace>)
    requires 1 <= month <= 12
    ensures traces == HistoricalTraces(series, month, years)
  {
    traces := [];
    var i := 0;
    while i < |years|
      invariant 0 <= i <= |years|
      invariant traces == HistoricalTraces(series, month, years[..i])
    {
      HistoricalStep(series, month, years, i);
      var year := years[i];
      var monthData := MonthRows(series, year, month);
      if |monthData| > 0 {
        traces := traces + [Trace(YearLabel(year), monthData, Colors[i % |Colors|], LineStyles[i % |LineStyles|])];
      }
      i := i + 1;
    }
    assert years[..|years|] == years;
  }

  /** SummaryOf unfolded at the j-th line. */
  lemma SummaryStep(traces: seq<Trace>, j: nat)
    requires j < |traces| && AllHaveRows(traces)
    ensures AllHaveRows(traces[..j]) && AllHaveRows(traces[..j + 1])
    ensures SummaryOf(traces[..j + 1]) == SummaryOf(traces[..j])[traces[j].name := StatsOf(Amounts(traces[j].rows))]
  {
    assert traces[..j + 1][..j] == traces[..j] && traces[..j + 1][j] == traces[j];
  }

  /** The loop filling `summary`, one entry per line, each written over any earlier one of the same name. */
  method Summarize(traces: seq<Trace>) returns (summary: map<Label, Stats>)
    requires AllHaveRows(traces)
    ensures summary == SummaryOf(traces)
  {
    summary := map[];
    var j := 0;
    while j < |traces|
      invariant 0 <= j <= |traces|
      invariant AllHaveRows(traces[..j])
      invariant summary == SummaryOf(traces[..j])
    {
      SummaryStep(traces, j);
      var t := traces[j];
      summary := summary[t.name := StatsOf(Amounts(t.rows))];
      j := j + 1;
    }
    assert traces[..|traces|] == traces;
  }

  /**
    `forecast_comparison`: without an uploaded series it fails with 400;
    otherwise the loop over the years, the optional forecast line and the loop
    filling the summary produce the result described by ComparisonOf. The
    shared state is only read.
  */
  method Compare(st: State, req: ComparisonRequest) returns (r: Result<ComparisonResult, Error>)
    requires 1 <= req.month <= 12
    ensures st.dailySales.None? ==> r == Failure(Rejected(NoData))
    ensures st.dailySales.Some? ==> r == ComparisonOf(st.dailySales.value, st.model, req)
    ensures r.Failure? ==> Status(r.error) == if st.dailySales.None? then 400 else 500
  {
    if st.dailySales.None? {
      return Failure(Rejected(NoData));
    }
    var series := st.dailySales.value;
    var traces := HistoricalLines(series, req.month, req.years);
    if WantsForecast(req, st.model) {
      if st.model.value.Unfit? {
        return Failure(Failed(ComparisonRoute, ModelNotFit));
      }
      traces := traces + [ForecastTrace(st.model.value.predict, req.forecastYear.value, req.month)];
    }
    assert traces == Lines(series, st.model, req);
    var summary := Summarize(traces);
    r := Success(ComparisonResult(traces, summary));
  }
}
