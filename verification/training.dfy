/**
  The training route (`POST /train-model`): keep the last two years of the
  series, split them at the fixed date 2022-12-31, fit a new model on the early
  part, and score its predictions against the late part.
*/
module Training {
  import opened Wrappers
  import opened Series
  import opened SharedState
  import Calendar

  /** The fixed train/test boundary `pd.to_datetime('2022-12-31')`. */
  const TrainEnd: Date := Calendar.Ordinal(Calendar.CivilDate(2022, 12, 31))

  /** `max(transaction_date) - pd.DateOffset(years=2)`. */
  function Cutoff(series: seq<Row>): Date
    requires series != []
  {
    Calendar.AddYears(MaxDate(series), -2)
  }

  /**
    The rows with `transaction_date >= cutoff`. On an empty table the maximum
    is NaT, every comparison with it is false, and nothing is kept.
  */
  function Retained(series: seq<Row>): seq<Row> {
    if series == [] then [] else Filter(series, (x: Row) => x.date >= Cutoff(series))
  }

  /**
    The retained rows are exactly the rows dated on or after the cutoff, which
    lies 730 or 731 days before the latest date; in particular the latest row
    is always kept, and every kept row is at most 731 days older than it.
  */
  lemma RetainedRows(series: seq<Row>)
    requires series != []
    ensures forall x :: x in Retained(series) <==> x in series && x.date >= Cutoff(series)
    ensures MaxDate(series) - 731 <= Cutoff(series) <= MaxDate(series) - 730
    ensures Retained(series) != []
    ensures forall x :: x in Retained(series) ==> MaxDate(series) - 731 <= x.date <= MaxDate(series)
  {
    Calendar.TwoYearsBack(MaxDate(series));
    var m := MaxDate(series);
    var x :| x in series && x.date == m;
    assert x in Retained(series);
  }

  function TrainPart(rows: seq<Row>): seq<Row> {
    Filter(rows, (x: Row) => x.date <= TrainEnd)
  }

  function TestPart(rows: seq<Row>): seq<Row> {
    Filter(rows, (x: Row) => x.date > TrainEnd)
  }

  /**
    The split at the boundary is a partition of the retained rows
    (training_days + test_days == |rows|), and every training date is
    strictly earlier than every test date.
  */
  lemma SplitPartition(rows: seq<Row>)
    ensures |TrainPart(rows)| + |TestPart(rows)| == |rows|
    ensures multiset(TrainPart(rows)) + multiset(TestPart(rows)) == multiset(rows)
    ensures forall a, b :: a in TrainPart(rows) && b in TestPart(rows) ==> a.date < b.date
  {
    FilterComplement(rows, (x: Row) => x.date <= TrainEnd, (x: Row) => x.date > TrainEnd);
  }

  // ---------------------------------------------------------------------------
  // Evaluation

  /**
    `make_future_dataframe(periods)` adds the `periods` days after the last
    training date; of the predictions only those after the boundary are kept.
  */
  predicate InPredictionWindow(d: Date, lastTrain: Date, periods: nat) {
    lastTrain < d <= lastTrain + periods && d > TrainEnd
  }

  /** A row of `merged_df`: a date, its actual `y` and the predicted `yhat`. */
  datatype Matched = Matched(date: Date, actual: real, predicted: real)

  /** The inner join on `ds` of the test rows with the kept predictions, in test-row order. */
  function Joined(test: seq<Row>, predict: Date -> Prediction, lastTrain: Date, periods: nat): (m: seq<Matched>)
    ensures |m| <= |test|
  {
    if test == [] then []
    else
      var x := test[0];
      (if InPredictionWindow(x.date, lastTrain, periods) then [Matched(x.date, x.amount, predict(x.date).yhat)] else [])
      + Joined(test[1..], predict, lastTrain, periods)
  }

  /**
    The join holds exactly the test rows whose date the prediction window
    covers, each paired with the model's prediction for that date.
  */
  lemma {:induction false} JoinedRows(test: seq<Row>, predict: Date -> Prediction, lastTrain: Date, periods: nat)
    ensures forall m :: m in Joined(test, predict, lastTrain, periods) <==>
              Row(m.date, m.actual) in test && InPredictionWindow(m.date, lastTrain, periods)
              && m.predicted == predict(m.date).yhat
  {
    if test != [] {
      JoinedRows(test[1..], predict, lastTrain, periods);
      assert test == [test[0]] + test[1..];
    }
  }

  function Abs(x: real): real {
    if x < 0.0 then -x else x
  }

  function SumAbsError(ms: seq<Matched>): real {
    if ms == [] then 0.0 else Abs(ms[0].actual - ms[0].predicted) + SumAbsError(ms[1..])
  }

  function SumSquaredError(ms: seq<Matched>): real {
    if ms == [] then 0.0
    else (ms[0].actual - ms[0].predicted) * (ms[0].actual - ms[0].predicted) + SumSquaredError(ms[1..])
  }

  /** Sum of |(y - yhat) / y|; only called when no actual is zero. */
  function SumAbsPercentError(ms: seq<Matched>): real
    requires forall k :: 0 <= k < |ms| ==> ms[k].actual != 0.0
  {
    if ms == [] then 0.0
    else Abs((ms[0].actual - ms[0].predicted) / ms[0].actual) + SumAbsPercentError(ms[1..])
  }

  predicate HasZeroActual(ms: seq<Matched>) {
    exists k :: 0 <= k < |ms| && ms[k].actual == 0.0
  }

  /**
    The reported scores. `mse` is the square of `rmse`; `mape` is None when an
    actual value is zero, where numpy's division gives no finite number.
  */
  datatype Metrics = Metrics(mae: real, mse: real, mape: Option<real>)

  const NoMetrics: Metrics := Metrics(0.0, 0.0, Some(0.0))

  /** mae, rmse² and mape over the joined rows; all three 0 when there is nothing to compare. */
  function MetricsOf(ms: seq<Matched>): (m: Metrics)
    ensures ms == [] ==> m == NoMetrics
    ensures m.mae >= 0.0 && m.mse >= 0.0
    ensures m.mape.Some? ==> m.mape.value >= 0.0
    ensures ms != [] ==> (m.mape.None? <==> HasZeroActual(ms))
    ensures m.mae == 0.0 <==> forall k :: 0 <= k < |ms| ==> ms[k].actual == ms[k].predicted
  {
    if ms == [] then NoMetrics
    else
      var n := |ms| as real;
      SumAbsErrorZero(ms);
      SquaredErrorsNonNegative(ms);
      var mape: Option<real> :=
        if HasZeroActual(ms) then None
        else (PercentErrorsNonNegative(ms); Some(SumAbsPercentError(ms) / n * 100.0));
      Metrics(SumAbsError(ms) / n, SumSquaredError(ms) / n, mape)
  }

  lemma {:induction false} SumAbsErrorZero(ms: seq<Matched>)
    ensures SumAbsError(ms) >= 0.0
    ensures SumAbsError(ms) == 0.0 <==> forall k :: 0 <= k < |ms| ==> ms[k].actual == ms[k].predicted
  {
    if ms != [] {
      SumAbsErrorZero(ms[1..]);
      assert forall k :: 1 <= k < |ms| ==> ms[k] == ms[1..][k - 1];
    }
  }

  lemma {:induction false} SquaredErrorsNonNegative(ms: seq<Matched>)
    ensures SumSquaredError(ms) >= 0.0
  {
    if ms != [] {
      SquaredErrorsNonNegative(ms[1..]);
      var e := ms[0].actual - ms[0].predicted;
      assert e * e >= 0.0;
    }
  }

  lemma {:induction false} PercentErrorsNonNegative(ms: seq<Matched>)
    requires forall k :: 0 <= k < |ms| ==> ms[k].actual != 0.0
    ensures SumAbsPercentError(ms) >= 0.0
  {
    if ms != [] {
      PercentErrorsNonNegative(ms[1..]);
    }
  }

  /**
    The scores of a model fitted on train and scored on test: zero when there
    is no test row, otherwise those of the join with the predictions for the
    |test| days after the last training day.
  */
  function Evaluation(train: seq<Row>, test: seq<Row>, predict: Date -> Prediction): Metrics
    requires train != []
  {
    if |test| > 0 then
      var merged := Joined(test, predict, MaxDate(train), |test|);
      if |merged| > 0 then MetricsOf(merged) else NoMetrics
    else NoMetrics
  }

  /**
    The evaluation block: scores start at zero and are replaced only when there
    are test rows and the join with the predictions is not empty.
  */
  method Evaluate(train: seq<Row>, test: seq<Row>, p: Date -> Prediction) returns (metrics: Metrics)
    requires train != []
    ensures metrics == Evaluation(train, test, p)
  {
    metrics := NoMetrics;
    if |test| > 0 {
      var merged := Joined(test, p, MaxDate(train), |test|);
      if |merged| > 0 {
        metrics := MetricsOf(merged);
      }
    }
  }

  /** The JSON body of a successful training. */
  datatype TrainingReport = TrainingReport(trainingDays: nat, testDays: nat, metrics: Metrics, modelTrained: bool)

  /** Prophet refuses to fit fewer than two rows; otherwise the fit is the caller-supplied one. */
  function FitOutcome(fit: seq<Row> -> Option<Date -> Prediction>, train: seq<Row>): Option<Date -> Prediction> {
    if |train| < 2 then None else fit(train)
  }

  /**
    `train_model`: without an uploaded series it fails before touching any
    state. Otherwise the model slot is first overwritten with a new, unfitted
    model; if the fit raises, that unfitted model stays in the slot and the
    route fails; if it succeeds the slot holds the fitted model and the report
    says `model_trained` with the sizes of the two parts. The series is only
    read.
  */
  method TrainModel(st: State, fit: seq<Row> -> Option<Date -> Prediction>) returns (r: Result<TrainingReport, Error>)
    requires st.Valid()
    modifies st
    ensures st.Valid()
    ensures st.dailySales == old(st.dailySales) && st.cleanData == old(st.cleanData)
    ensures r.Failure? ==> Status(r.error) == if old(st.dailySales).None? then 400 else 500
    ensures old(st.dailySales).None? ==> r == Failure(Rejected(NoData)) && st.model == old(st.model)
    ensures old(st.dailySales).Some? ==>
              var sub := Retained(old(st.dailySales).value);
              var train, test := TrainPart(sub), TestPart(sub);
              match FitOutcome(fit, train)
              case None =>
                st.model.Some? && st.model.value.Unfit? && r == Failure(Failed(TrainRoute, FitFailed))
              case Some(p) =>
                && st.model.Some? && st.model.value.Fitted? && st.model.value.predict == p
                && r == Success(TrainingReport(|train|, |test|, Evaluation(train, test, p), true))
  {
    if st.dailySales.None? {
      return Failure(Rejected(NoData));
    }
    var series := st.dailySales.value;
    var sub := Retained(series);
    var train, test := TrainPart(sub), TestPart(sub);
    st.model := Some(Unfit);
    var fitted := FitOutcome(fit, train);
    if fitted.None? {
      return Failure(Failed(TrainRoute, FitFailed));
    }
    var p := fitted.value;
    st.model := Some(Fitted(p));
    var metrics := Evaluate(train, test, p);
    r := Success(TrainingReport(|train|, |test|, metrics, true));
  }

  /**
    What a successful training reports: the two parts add up to the retained
    rows, the join is no longer than the test part, and the scores are zero
    when there was nothing to compare.
  */
  lemma TrainingReportCounts(series: seq<Row>, p: Date -> Prediction)
    requires TrainPart(Retained(series)) != []
    ensures var sub := Retained(series);
            var train, test := TrainPart(sub), TestPart(sub);
            && |train| + |test| == |sub|
            && |Joined(test, p, MaxDate(train), |test|)| <= |test|
            && (test == [] ==> Evaluation(train, test, p) == NoMetrics)
            && (Joined(test, p, MaxDate(train), |test|) == [] ==> Evaluation(train, test, p) == NoMetrics)
  {
    SplitPartition(Retained(series));
  }
}
