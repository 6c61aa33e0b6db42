/**
  The forecast route (`POST /forecast`): predict every day of an inclusive date
  range, describe the predictions, and merge them into the shared series with
  `concat(...).drop_duplicates(subset=['transaction_date'], keep='last')`.
*/
module Forecasting {
  import opened Wrappers
  import opened Series
  import opened SharedState
  import Calendar

  datatype ForecastRequest = ForecastRequest(start: Date, end: Date, includeUncertainty: bool)

  /** `pd.date_range(start, end, freq='D')`: every day from start through end. */
  function DateRange(start: Date, end: Date): (r: seq<Date>)
    ensures |r| == if start <= end then end - start + 1 else 0
    ensures r != [] ==> r[0] == start && r[|r| - 1] == end
    ensures forall k :: 0 <= k < |r| - 1 ==> r[k + 1] == r[k] + 1
  {
    if start <= end then seq(end - start + 1, k => start + k) else []
  }

  /** The days of a range are strictly increasing and all lie within it. */
  lemma {:induction false} DateRangeIncreasing(start: Date, end: Date)
    ensures forall i, j :: 0 <= i < j < |DateRange(start, end)| ==> DateRange(start, end)[i] < DateRange(start, end)[j]
    ensures forall d :: d in DateRange(start, end) <==> start <= d <= end
  {
    var r := DateRange(start, end);
    forall i, j | 0 <= i < j < |r| ensures r[i] < r[j] {
      ConsecutiveGap(r, i, j);
    }
    forall d | start <= d <= end ensures d in r {
      ConsecutiveGap(r, 0, d - start);
    }
    forall d | d in r ensures start <= d <= end {
      var k :| 0 <= k < |r| && r[k] == d;
      ConsecutiveGap(r, 0, k);
      if k < |r| - 1 { ConsecutiveGap(r, k, |r| - 1); }
    }
  }

  lemma {:induction false} ConsecutiveGap(r: seq<Date>, i: nat, j: nat)
    requires i <= j < |r|
    requires forall k :: 0 <= k < |r| - 1 ==> r[k + 1] == r[k] + 1
    ensures r[j] == r[i] + (j - i)
    decreases j - i
  {
    if i < j {
      ConsecutiveGap(r, i, j - 1);
    }
  }

  // ---------------------------------------------------------------------------
  // Response entries

  datatype Interval = Interval(lower: real, upper: real)

  /**
    One element of `forecast_data`. The day and month names (`strftime`) are
    not modelled; `bounds` holds `lower_bound`/`upper_bound` when present.
    The `year` key is a function of the date, so it is derived rather than stored.
  */
  datatype Entry = Entry(date: Date, forecast: real, bounds: Option<Interval>)
  {
    /** `int(row['ds'].year)`. */
    function Year(): int {
      Calendar.Civil(date).year
    }
  }

  /**
    The loop over the prediction rows: one entry per day, in order, carrying
    the prediction's `yhat`, with the interval bounds
    present exactly when they were requested.
  */
  method BuildEntries(dates: seq<Date>, predict: Date -> Prediction, includeUncertainty: bool)
    returns (entries: seq<Entry>)
    ensures |entries| == |dates|
    ensures forall k :: 0 <= k < |dates| ==>
              && entries[k].date == dates[k]
              && entries[k].forecast == predict(dates[k]).yhat
              && (entries[k].bounds.Some? <==> includeUncertainty)
              && (includeUncertainty ==>
                    entries[k].bounds.value == Interval(predict(dates[k]).lower, predict(dates[k]).upper))
  {
    entries := [];
    var i := 0;
    while i < |dates|
      invariant 0 <= i <= |dates| && |entries| == i
      invariant forall k :: 0 <= k < i ==>
                  && entries[k].date == dates[k]
                  && entries[k].forecast == predict(dates[k]).yhat
                  && (entries[k].bounds.Some? <==> includeUncertainty)
                  && (includeUncertainty ==>
                        entries[k].bounds.value == Interval(predict(dates[k]).lower, predict(dates[k]).upper))
    {
      var row := predict(dates[i]);
      var entry := Entry(dates[i], row.yhat, None);
      if includeUncertainty {
        entry := entry.(bounds := Some(Interval(row.lower, row.upper)));
      }
      entries := entries + [entry];
      i := i + 1;
    }
  }

  /** The `yhat` column of the predictions for dates. */
  function Forecasts(dates: seq<Date>, predict: Date -> Prediction): (ys: seq<real>)
    ensures |ys| == |dates| && forall k :: 0 <= k < |dates| ==> ys[k] == predict(dates[k]).yhat
  {
    seq(|dates|, k requires 0 <= k < |dates| => predict(dates[k]).yhat)
  }

  // ---------------------------------------------------------------------------
  // Back-fill

  /** The rows appended to the series: one (date, yhat) row per forecast day. */
  function ForecastRows(dates: seq<Date>, predict: Date -> Prediction): (rows: seq<Row>)
    ensures |rows| == |dates| && forall k :: 0 <= k < |dates| ==> rows[k] == Row(dates[k], predict(dates[k]).yhat)
  {
    seq(|dates|, k requires 0 <= k < |dates| => Row(dates[k], predict(dates[k]).yhat))
  }

  /**
    `drop_duplicates(subset=['transaction_date'], keep='last')`: a row survives
    when no later row has its date. The result has unique dates, the same
    dates as the input, and only input rows.
  */
  function KeepLast(s: seq<Row>): (r: seq<Row>)
    ensures UniqueDates(r)
    ensures DateSet(r) == DateSet(s)
    ensures forall x :: x in r ==> x in s
  {
    if s == [] then []
    else
      assert s == [s[0]] + s[1..];
      DateSetAppend([s[0]], s[1..]);
      var rest := KeepLast(s[1..]);
      if s[0].date in DateSet(s[1..]) then rest
      else
        var r := [s[0]] + rest;
        assert forall j :: 0 < j < |r| ==> r[j] == rest[j - 1];
        DateSetAppend([s[0]], rest);
        r
  }

  /** A row survives KeepLast exactly when it is the last row of its date. */
  lemma {:induction false} KeepLastIsLast(s: seq<Row>)
    ensures forall i :: 0 <= i < |s| && (forall j :: i < j < |s| ==> s[j].date != s[i].date) ==>
              s[i] in KeepLast(s)
    ensures forall x :: x in KeepLast(s) ==>
              exists i :: 0 <= i < |s| && s[i] == x && forall j :: i < j < |s| ==> s[j].date != x.date
  {
    if s != [] {
      var t := s[1..];
      KeepLastIsLast(t);
      forall i | 0 <= i < |s| && (forall j :: i < j < |s| ==> s[j].date != s[i].date)
        ensures s[i] in KeepLast(s)
      {
        if i == 0 {
          assert s[0].date !in DateSet(t) by {
            forall x | x in t ensures x.date != s[0].date {
              var k :| 0 <= k < |t| && t[k] == x;
              assert s[k + 1] == x;
            }
          }
        } else {
          assert t[i - 1] == s[i];
          forall j | i - 1 < j < |t| ensures t[j].date != t[i - 1].date {
            assert t[j] == s[j + 1];
          }
        }
      }
      forall x | x in KeepLast(s)
        ensures exists i :: 0 <= i < |s| && s[i] == x && forall j :: i < j < |s| ==> s[j].date != x.date
      {
        if x in KeepLast(t) {
          var i :| 0 <= i < |t| && t[i] == x && forall j :: i < j < |t| ==> t[j].date != x.date;
          assert s[i + 1] == x;
          forall j | i + 1 < j < |s| ensures s[j].date != x.date {
            assert s[j] == t[j - 1];
          }
        } else {
          assert x == s[0] && s[0].date !in DateSet(t);
          forall j | 0 < j < |s| ensures s[j].date != x.date {
            assert s[j] == t[j - 1];
          }
        }
      }
    }
  }

  /** On a table whose dates are already unique, KeepLast drops nothing. */
  lemma {:induction false} KeepLastUnique(s: seq<Row>)
    requires UniqueDates(s)
    ensures KeepLast(s) == s
  {
    if s != [] {
      UniqueTail(s);
      KeepLastUnique(s[1..]);
    }
  }

  /** `pd.concat([series, forecast]).drop_duplicates(..., keep='last')`. */
  function BackFill(series: seq<Row>, forecast: seq<Row>): seq<Row> {
    KeepLast(series + forecast)
  }

  /** The mask selecting rows whose date the forecast does not cover. */
  function Uncovered(forecast: seq<Row>): Row -> bool {
    (x: Row) => x.date !in DateSet(forecast)
  }

  /** The old rows whose date the forecast does not cover, in their order. */
  function NotForecast(series: seq<Row>, forecast: seq<Row>): seq<Row> {
    Filter(series, Uncovered(forecast))
  }

  /** KeepLast unfolded once on a table given as its first row and the rest. */
  lemma KeepLastCons(x: Row, u: seq<Row>)
    ensures KeepLast([x] + u) == if x.date in DateSet(u) then KeepLast(u) else [x] + KeepLast(u)
  {
    assert ([x] + u)[0] == x && ([x] + u)[1..] == u;
  }

  /** Merging a series given as its first row and the rest, when that row's date is not repeated. */
  lemma BackFillCons(series: seq<Row>, forecast: seq<Row>)
    requires series != [] && series[0].date !in DateSet(series[1..])
    ensures BackFill(series, forecast)
         == if series[0].date in DateSet(forecast) then BackFill(series[1..], forecast)
            else [series[0]] + BackFill(series[1..], forecast)
  {
    var x, t := series[0], series[1..];
    assert series + forecast == [x] + (t + forecast);
    DateSetAppend(t, forecast);
    KeepLastCons(x, t + forecast);
  }

  /** The rows kept from a series given as its first row and the rest. */
  lemma NotForecastCons(series: seq<Row>, forecast: seq<Row>)
    requires series != []
    ensures NotForecast(series, forecast)
         == if series[0].date in DateSet(forecast) then NotForecast(series[1..], forecast)
            else [series[0]] + NotForecast(series[1..], forecast)
  {
    assert series == [series[0]] + series[1..];
    FilterCons(series[0], series[1..], Uncovered(forecast));
    assert [] + NotForecast(series[1..], forecast) == NotForecast(series[1..], forecast);
  }

  /**
    The order after the merge: the old rows whose date was not forecast, in
    their original order, then the forecast rows in range order. The series is
    not re-sorted.
  */
  lemma {:induction false} BackFillOrder(series: seq<Row>, forecast: seq<Row>)
    requires UniqueDates(series) && UniqueDates(forecast)
    ensures BackFill(series, forecast) == NotForecast(series, forecast) + forecast
  {
    if series == [] {
      assert series + forecast == forecast;
      KeepLastUnique(forecast);
    } else {
      UniqueTail(series);
      BackFillOrder(series[1..], forecast);
      BackFillOrderStep(series, forecast);
    }
  }

  /** The inductive step of BackFillOrder: the order on the rest carries over to the whole series. */
  lemma BackFillOrderStep(series: seq<Row>, forecast: seq<Row>)
    requires series != [] && UniqueDates(series)
    requires BackFill(series[1..], forecast) == NotForecast(series[1..], forecast) + forecast
    ensures BackFill(series, forecast) == NotForecast(series, forecast) + forecast
  {
    var x, t := series[0], series[1..];
    var covered := x.date in DateSet(forecast);
    var bf, nf := BackFill(t, forecast), NotForecast(t, forecast);
    assert BackFill(series, forecast) == if covered then bf else [x] + bf by {
      UniqueTail(series);
      BackFillCons(series, forecast);
    }
    assert NotForecast(series, forecast) == if covered then nf else [x] + nf by {
      NotForecastCons(series, forecast);
    }
    if !covered {
      assert [x] + (nf + forecast) == [x] + nf + forecast;
    }
  }

  lemma BackFillContents(series: seq<Row>, forecast: seq<Row>)
    requires UniqueDates(series) && UniqueDates(forecast)
    ensures forall x :: x in BackFill(series, forecast) <==>
              x in forecast || (x in series && x.date !in DateSet(forecast))
    ensures UniqueDates(BackFill(series, forecast))
    ensures DateSet(BackFill(series, forecast)) == DateSet(series) + DateSet(forecast)
  {
    BackFillOrder(series, forecast);
    DateSetAppend(series, forecast);
  }

  lemma {:induction false} FilterAll(s: seq<Row>, keep: Row -> bool)
    requires forall x :: x in s ==> keep(x)
    ensures Filter(s, keep) == s
  {
    if s != [] {
      assert forall x :: x in s[1..] ==> x in s;
      FilterAll(s[1..], keep);
      assert s == [s[0]] + s[1..];
    }
  }

  lemma {:induction false} FilterNone(s: seq<Row>, keep: Row -> bool)
    requires forall x :: x in s ==> !keep(x)
    ensures Filter(s, keep) == []
  {
    if s != [] {
      assert forall x :: x in s[1..] ==> x in s;
      FilterNone(s[1..], keep);
    }
  }

  /** Taking the uncovered rows of a merge gives back the uncovered rows of the original series. */
  lemma NotForecastOfMerge(series: seq<Row>, forecast: seq<Row>)
    ensures NotForecast(NotForecast(series, forecast) + forecast, forecast) == NotForecast(series, forecast)
  {
    var kept := NotForecast(series, forecast);
    FilterAppend(kept, forecast, Uncovered(forecast));
    FilterAll(kept, Uncovered(forecast));
    assert forall x :: x in forecast ==> x.date in DateSet(forecast);
    FilterNone(forecast, Uncovered(forecast));
    assert kept + [] == kept;
  }

  /** Forecasting the same days with the same model again leaves the series as it was. */
  lemma BackFillIdempotent(series: seq<Row>, forecast: seq<Row>)
    requires UniqueDates(series) && UniqueDates(forecast)
    ensures BackFill(BackFill(series, forecast), forecast) == BackFill(series, forecast)
  {
    var once := BackFill(series, forecast);
    BackFillOrder(series, forecast);
    BackFillOrder(once, forecast);
    NotForecastOfMerge(series, forecast);
  }

  /** The series grows by the number of forecast dates it did not already hold. */
  lemma BackFillGrowth(series: seq<Row>, forecast: seq<Row>)
    requires UniqueDates(series) && UniqueDates(forecast)
    ensures |BackFill(series, forecast)| == |series| + |DateSet(forecast) - DateSet(series)|
  {
    BackFillContents(series, forecast);
    UniqueDateCount(BackFill(series, forecast));
    UniqueDateCount(series);
    assert DateSet(series) + DateSet(forecast) == DateSet(series) + (DateSet(forecast) - DateSet(series));
  }

  /**
    The table appended by a forecast of [start, end] has one row per day of
    the range and no other: its dates are unique and are exactly the range,
    each day carries the model's `yhat`, and its spend column is the column
    the summary describes.
  */
  lemma ForecastRowsCover(start: Date, end: Date, predict: Date -> Prediction)
    ensures var rows := ForecastRows(DateRange(start, end), predict);
            && UniqueDates(rows)
            && (forall d :: d in DateSet(rows) <==> start <= d <= end)
            && (forall x :: x in rows <==> start <= x.date <= end && x.amount == predict(x.date).yhat)
            && Amounts(rows) == Forecasts(DateRange(start, end), predict)
  {
    var dates := DateRange(start, end);
    var rows := ForecastRows(dates, predict);
    DateRangeIncreasing(start, end);
    assert UniqueDates(rows);
    forall x ensures x in rows <==> start <= x.date <= end && x.amount == predict(x.date).yhat {
      if start <= x.date <= end && x.amount == predict(x.date).yhat {
        assert x.date in dates;
        var k :| 0 <= k < |dates| && dates[k] == x.date;
        assert rows[k] == x;
      }
    }
    assert forall d :: d in DateSet(rows) <==> start <= d <= end by {
      forall d | start <= d <= end ensures d in DateSet(rows) {
        assert Row(d, predict(d).yhat) in rows;
      }
    }
  }

  /**
    The series after a successful forecast of [start, end]: a row is in it
    exactly when it is a day of the range carrying the model's `yhat` for that
    day, or an old row outside the range. Actual values inside the range are
    replaced by predictions.
  */
  lemma ForecastOverwrites(series: seq<Row>, start: Date, end: Date, predict: Date -> Prediction)
    requires UniqueDates(series)
    ensures forall x :: x in BackFill(series, ForecastRows(DateRange(start, end), predict)) <==>
              || (start <= x.date <= end && x.amount == predict(x.date).yhat)
              || (x in series && !(start <= x.date <= end))
  {
    var rows := ForecastRows(DateRange(start, end), predict);
    ForecastRowsCover(start, end, predict);
    BackFillContents(series, rows);
  }

  // ---------------------------------------------------------------------------
  // The route

  /** The structured result: the entries and their summary (`total_days` is its count). */
  datatype ForecastReport = ForecastReport(entries: seq<Entry>, summary: Stats)

  /**
    `generate_forecast`: without a model it fails with 400. A start not before
    the end, or a model whose fit failed, fails inside the `try` and comes back
    as "Error generating forecast" (500); none of these touches the state.
    Otherwise the report has one entry per day of the range, its summary
    describes the range's predictions, and the series becomes the back-fill of
    those predictions.
  */
  method GenerateForecast(st: State, req: ForecastRequest) returns (r: Result<ForecastReport, Error>)
    requires st.Valid()
    modifies st
    ensures st.Valid()
    ensures st.model == old(st.model) && st.cleanData == old(st.cleanData)
    ensures r.Failure? ==> Status(r.error) == if old(st.model).None? then 400 else 500
    ensures old(st.model).None? ==>
              r == Failure(Rejected(NoModel)) && st.dailySales == old(st.dailySales)
    ensures old(st.model).Some? && req.start >= req.end ==>
              r == Failure(Failed(ForecastRoute, InvalidRange)) && st.dailySales == old(st.dailySales)
    ensures old(st.model).Some? && old(st.model).value.Unfit? && req.start < req.end ==>
              r == Failure(Failed(ForecastRoute, ModelNotFit)) && st.dailySales == old(st.dailySales)
    ensures old(st.model).Some? && old(st.model).value.Fitted? && req.start < req.end ==>
              var predict := old(st.model).value.predict;
              var dates := DateRange(req.start, req.end);
              && old(st.dailySales).Some?
              && st.dailySales == Some(BackFill(old(st.dailySales).value, ForecastRows(dates, predict)))
              && r.Success?
              && |r.value.entries| == req.end - req.start + 1
              && (forall k :: 0 <= k < |dates| ==>
                    && r.value.entries[k].date == dates[k]
                    && r.value.entries[k].forecast == predict(dates[k]).yhat
                    && (r.value.entries[k].bounds.Some? <==> req.includeUncertainty)
                    && (req.includeUncertainty ==>
                          r.value.entries[k].bounds.value == Interval(predict(dates[k]).lower, predict(dates[k]).upper)))
              && r.value.summary == StatsOf(Forecasts(dates, predict))
  {
    if st.model.None? {
      return Failure(Rejected(NoModel));
    }
    if req.start >= req.end {
      return Failure(Failed(ForecastRoute, InvalidRange));
    }
    if st.model.value.Unfit? {
      return Failure(Failed(ForecastRoute, ModelNotFit));
    }
    var dates := DateRange(req.start, req.end);
    var predict := st.model.value.predict;
    var entries := BuildEntries(dates, predict, req.includeUncertainty);
    var summary := StatsOf(Forecasts(dates, predict));
    var rows := ForecastRows(dates, predict);
    st.dailySales := Some(BackFill(st.dailySales.value, rows));
    r := Success(ForecastReport(entries, summary));
  }
}
