/**
  The process-wide state the four routes share (module `state` of the service:
  `global_daily_sales`, `global_data`, `global_model`), the forecasting model as
  the routes see it, and the errors the routes raise.
*/
module SharedState {
  import opened Wrappers
  import opened Series

  /** The model's answer for one day: `yhat`, `yhat_lower`, `yhat_upper`. */
  datatype Prediction = Prediction(yhat: real, lower: real, upper: real)

  /**
    The object held in `state.global_model`. Training stores a freshly built
    model before fitting it, so the slot can hold a model whose fit raised
    (Unfit, on which `predict` raises too) or a fitted one, whose `predict` is
    an uninterpreted function of the date.
  */
  datatype Model = Unfit | Fitted(predict: Date -> Prediction)

  datatype Route = UploadRoute | TrainRoute | ForecastRoute | ComparisonRoute

  /** Why a route failed. */
  datatype Cause =
    | MissingColumns   // the CSV lacks `transaction_date` or `spend`
    | NoData           // "Please upload data first"
    | NoModel          // "Please train the model first"
    | InvalidRange     // "Start date must be before end date"
    | FitFailed        // the model's fit raised
    | ModelNotFit      // predict was called on a model whose fit raised

  /**
    Rejected: raised before the route's `try` block, passed through as is.
    Failed: raised inside the `try` and re-raised by the route's catch-all
    handler with the route's generic message ("Error processing file",
    "Error training model", ...), even when the inner error was itself an
    HTTP error.
  */
  datatype Error = Rejected(cause: Cause) | Failed(route: Route, cause: Cause)

  /** The HTTP status the client sees: the upload handler answers 400, the others 500. */
  function Status(e: Error): int {
    match e
    case Rejected(_) => 400
    case Failed(route, _) => if route == UploadRoute then 400 else 500
  }

  class State {
    /** `state.global_daily_sales`: None until the first successful upload. */
    var dailySales: Option<seq<Row>>
    /** `state.global_data`: the cleaned rows of the last upload. */
    var cleanData: Option<seq<Row>>
    /** `state.global_model`: None until the first training. */
    var model: Option<Model>

    /**
      The series never holds two rows for one date; a model exists only after
      an upload (training refuses to run before one); the series and the
      cleaned rows are set together.
    */
    ghost predicate Valid()
      reads this
    {
      && (dailySales.Some? ==> UniqueDates(dailySales.value))
      && (model.Some? ==> dailySales.Some?)
      && (cleanData.Some? <==> dailySales.Some?)
    }

    /** The state at process start. */
    constructor ()
      ensures Valid()
      ensures dailySales.None? && cleanData.None? && model.None?
    {
      dailySales := None;
      cleanData := None;
      model := None;
    }
  }
}
