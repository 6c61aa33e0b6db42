# Sales-Forecasting service, modelled in Dafny

The service keeps one daily sales series in process-wide state and exposes four
routes over it:

- **upload** (`POST /upload-data/upload-data`) reads a CSV table of `(transaction_date, spend)`,
  sorts it, drops outliers outside the `Q1 - 2·IQR .. Q3 + 2·IQR` fences, sums
  the clean spends per day and replaces the shared series;
- **train** (`POST /train-model/train-model`) keeps the last two years of the series, splits
  them at 2022-12-31, fits a forecasting model on the early part and scores its
  predictions against the late part;
- **forecast** (`POST /forecast/forecast`) predicts every day of an inclusive range,
  describes the predictions and back-fills them into the shared series with
  `concat(...).drop_duplicates(keep='last')`;
- **comparison** (`POST /compare/forecast-comparison`) draws, for one calendar month,
  one line per requested year that has rows in that month, optionally a
  forecast line, and summarises each line.

`app.py` mounts each route's router under a prefix (`/upload-data`, `/train-model`,
`/forecast`, `/compare`), so the served path is the prefix followed by the path
declared in the router.

The model works on day numbers (`Date = int`, day 1 is 0001-01-01, as Python's
`toordinal`) and real amounts. The forecasting library is a value `Model =
Unfit | Fitted(predict)` whose `predict` is an arbitrary function from a day to
`(yhat, lower, upper)`; fitting is a caller-supplied function that may fail.

Modules, one file each:

| file | module | what it holds |
|---|---|---|
| wrappers.dfy | Wrappers | `Option`, `Result` |
| calendar.dfy | Calendar | proleptic Gregorian calendar: day numbers to and from year/month/day, month lengths, `DateOffset(years=k)` |
| series.dfy | Series | rows, boolean-mask filters, min/max dates, sum/mean/min/max statistics |
| state.dfy | SharedState | the shared `State` class (`global_daily_sales`, `global_data`, `global_model`), the model, the errors |
| upload.dfy | Upload | the upload route |
| training.dfy | Training | the training route |
| forecasting.dfy | Forecasting | the forecast route and the back-fill merge |
| comparison.dfy | Comparison | the comparison route |

The routes that change the shared state (`UploadData`, `TrainModel`,
`GenerateForecast`) are methods taking the shared `State` object, with `modifies` frames and
the invariant `State.Valid()`: the series has one row per date, and a model
exists only after an upload. `Compare` only reads the state. Each loop of the
routes is a `while` loop: the loops over the years and over the summary in
comparison are proved equal to the functions that specify them
(`HistoricalTraces`, `SummaryOf`), and the loop building the forecast entries
is proved against a per-entry postcondition.

Errors: `Rejected(cause)` is an HTTP error raised before a route's `try` block;
`Failed(route, cause)` is an error raised inside the `try` and re-raised by the
route's catch-all handler (status 400 for upload, 500 for the others). The
function `SharedState.Status` gives the status the client sees, and each
route's contract states the status of every failure it returns.

## Model

| member | source | states |
|---|---|---|
| Calendar.DaysInMonth | routes/forecast_comparison.py:31 | a month has between 28 and 31 days |
| Calendar.Civil | routes/forecast_comparison.py:40 | the year/month/day of a day number is a valid calendar date whose day number is that number |
| Calendar.CivilOfOrdinal | routes/forecast_comparison.py:30-31 | converting a valid date to its day number and back gives the same date |
| Calendar.LastOfMonth | routes/forecast_comparison.py:31 | the first of the next month minus one day is the month's last day, `DaysInMonth` days after the first counting both |
| Calendar.DayOfMonthInWindow | routes/forecast_comparison.py:40 | a day inside a month's window has day-of-month equal to its offset from the first plus one |
| Calendar.AddYearsDate | routes/train_model.py:21 | moving a date by k years keeps month and day, with 29 February cut to 28 February in a common year |
| Calendar.TwoYearsBack | routes/train_model.py:21 | two calendar years back is 730 or 731 days back |
| Series.Filter | routes/upload_data.py:35-36 | a boolean-mask selection keeps exactly the rows satisfying the mask and is no longer than the table |
| Series.FilterComplement | routes/upload_data.py:35-36 | two complementary masks split a table: counts, sums and multisets add up to the whole |
| Series.MaxDate | routes/train_model.py:21 | the maximum date of a non-empty table is one of its dates and bounds all of them |
| Series.MinDate | routes/upload_data.py:49 | the minimum date of a non-empty table is one of its dates and is below all of them |
| Series.StatsOf | routes/forecast_comparison.py:105-110 | count is the number of values, total their sum, min and max are values bounding all, min <= mean <= max and total = mean · count |
| Series.SumOfAmounts | routes/forecast_comparison.py:106 | the sum of the spend column is the table's total spend |
| SharedState.State.constructor | routes/train_model.py:16-17 | at start there is no series, no cleaned table and no model, and the state invariant holds |
| Upload.SortByDate | routes/upload_data.py:26 | the sorted table is ordered by date and is a permutation of the input |
| Upload.OutlierBounds | routes/upload_data.py:29-33 | the fences lie 5·IQR apart and enclose [Q1, Q3] whenever Q1 <= Q3 |
| Upload.OutliersAndCleanPartition | routes/upload_data.py:35-36 | a row is clean iff lower <= spend <= upper and an outlier iff not clean; outliers and clean rows add up to the table in count, sum and multiset |
| Upload.QuartileRowsAreClean | routes/upload_data.py:29-36 | every row with Q1 <= spend <= Q3 is clean |
| Upload.DailySeries | routes/upload_data.py:39 | the group-by-date sum has the same set of dates as its input and is no longer |
| Upload.DailySeriesIncreasing | routes/upload_data.py:39 | on rows sorted by date the daily series has strictly increasing dates, so one row per date |
| Upload.DailySeriesSums | routes/upload_data.py:39 | each daily amount is the sum of that date's spends |
| Upload.DailySeriesTotal | routes/upload_data.py:39 | grouping preserves the total spend |
| Upload.Report | routes/upload_data.py:42-52 | total_records is the row count, outliers_removed and clean_records are the sizes of the two selections and add up to it, daily_records is at most clean_records and, on rows sorted by date, equals the number of distinct clean dates; the date range is present exactly when some row is clean and is then the minimum and maximum clean date |
| Upload.DailyRecordsCount | routes/upload_data.py:39-47 | on rows sorted by date the daily series of the clean rows has one row per distinct clean date |
| Upload.UploadData | routes/upload_data.py:12-55 | every failure has status 400; a table without both columns fails with "Error processing file" and changes nothing; otherwise the series and cleaned rows are replaced by values computed from this file alone, the model slot is kept and the invariant holds |
| Training.RetainedRows | routes/train_model.py:21-22 | the retained rows are exactly those dated on or after the cutoff, which lies 730 or 731 days before the latest date; the latest row is kept |
| Training.SplitPartition | routes/train_model.py:25-27 | train and test partition the retained rows (training_days + test_days = their count, as multisets too), and every train date is before every test date |
| Training.Joined | routes/train_model.py:57 | the inner join is no longer than the test rows |
| Training.JoinedRows | routes/train_model.py:53-57 | the join holds exactly the test rows inside the prediction window after the boundary, each paired with the model's yhat |
| Training.MetricsOf | routes/train_model.py:58-61 | mae and mse are non-negative, mae is 0 iff every prediction is exact, mape is absent iff an actual is zero, and an empty join scores 0 |
| Training.SumAbsErrorZero | routes/train_model.py:59 | the absolute error sum is non-negative and 0 iff every prediction equals its actual |
| Training.Evaluate | routes/train_model.py:51-61 | the scores start at 0 and are replaced only when there are test rows and the join is not empty |
| Training.TrainModel | routes/train_model.py:16-74 | without a series it fails with status 400 and changes nothing, and every other failure has status 500; otherwise the model slot first gets an unfitted model, which stays there when the fit fails (500); on success the slot holds the fitted model and the report has the two part sizes, the scores and model_trained = true; the series is not changed |
| Training.TrainingReportCounts | routes/train_model.py:51-66 | the reported sizes add up to the retained rows, the join is no longer than the test part, and the scores are 0 when either is empty |
| Forecasting.DateRange | routes/forecast.py:26 | the daily range from start to end has end - start + 1 consecutive days, starting at start and ending at end |
| Forecasting.DateRangeIncreasing | routes/forecast.py:26 | the range is strictly increasing and holds exactly the days between start and end |
| Forecasting.BuildEntries | routes/forecast.py:33-49 | one entry per day in order, carrying the day's yhat, with bounds present iff requested and then equal to the prediction interval |
| Forecasting.ForecastRowsCover | routes/forecast.py:107-108 | the appended table has unique dates which are exactly the days of the range, each row carries the model's yhat for its day, and its spend column is the yhat column the summary describes |
| Forecasting.KeepLast | routes/forecast.py:115-117 | dropping duplicates leaves unique dates, the same set of dates and only rows of the input |
| Forecasting.KeepLastIsLast | routes/forecast.py:117 | a row survives iff no later row has its date |
| Forecasting.KeepLastUnique | routes/forecast.py:117 | on a table with unique dates nothing is dropped |
| Forecasting.BackFillOrder | routes/forecast.py:115-117 | the merged series is the old rows whose date is not forecast, in their order, followed by the forecast rows; it is not re-sorted |
| Forecasting.BackFillContents | routes/forecast.py:115-117 | a row survives iff it is a forecast row or an old row whose date is not forecast; dates are unique and are the old dates plus the forecast dates |
| Forecasting.BackFillIdempotent | routes/forecast.py:115-117 | back-filling the same forecast twice gives the same series as once |
| Forecasting.BackFillGrowth | routes/forecast.py:115-117 | the series grows by the number of forecast dates it did not hold |
| Forecasting.ForecastOverwrites | routes/forecast.py:107-117 | after the merge, days of the range carry the model's yhat even where an actual existed, and rows outside the range are the old ones |
| Forecasting.GenerateForecast | routes/forecast.py:15-131 | without a model it fails with 400; start >= end or an unfitted model fails with 500 and changes nothing; otherwise there are end - start + 1 entries with the days and yhat values, each with lower and upper bounds exactly when they were requested, equal to the prediction interval; the summary describes the yhat column (its count is total_days) and the series becomes the back-fill of the predictions; model and cleaned rows are kept |
| Comparison.MonthRowsDays | routes/forecast_comparison.py:30-40 | a row is selected for a year iff its date lies in the month's window; its day label is in 1..days-in-month; with unique dates at most days-in-month rows are selected |
| Comparison.HistoricalTracesSound | routes/forecast_comparison.py:29-56 | every historical line belongs to a requested year, has rows, and is styled `colors[i % 8]`, `line_styles[i % 4]` by that year's position i, skipped years counted |
| Comparison.HistoricalTracesComplete | routes/forecast_comparison.py:29-56 | every requested year with rows in the window has its line |
| Comparison.MonthDays | routes/forecast_comparison.py:61-64 | the forecast month's daily range has days-in-month days, the k-th being the first of the month plus k |
| Comparison.ForecastTraceDays | routes/forecast_comparison.py:61-73 | the forecast line has days-in-month rows, the k-th being day k + 1 of the month with the model's yhat |
| Comparison.Lines | routes/forecast_comparison.py:29-85 | every line of the figure has at least one row |
| Comparison.LinesForecast | routes/forecast_comparison.py:59-85 | a forecast line is present iff a non-zero forecast year is given, a model exists and it is fitted; it is then the last line, labelled with that year, with days-in-month rows |
| Comparison.LinesBounded | routes/forecast_comparison.py:34-40 | on a series with unique dates no line has more rows than its month has days |
| Comparison.SummaryKeys | routes/forecast_comparison.py:102-111 | the summary has one entry per line label |
| Comparison.SummaryLastWins | routes/forecast_comparison.py:102-111 | a label's entry describes the last line with that label: a repeated label overwrites the earlier entry |
| Comparison.SummaryFromLines | routes/forecast_comparison.py:102-111 | every entry is the statistics of some non-empty line with its label |
| Comparison.LineStats | routes/forecast_comparison.py:105-110 | a line's entry has days_with_data = its row count, total_sales = its total spend, min <= average <= max and total = average · count |
| Comparison.SummaryCounts | routes/forecast_comparison.py:110 | when every line fits its month, every days_with_data is at most days-in-month |
| Comparison.ComparisonSummary | routes/forecast_comparison.py:102-111 | a successful comparison has one entry per line label, each the statistics of a line with that label, and with unique dates no count exceeds its month's length |
| Comparison.HistoricalLines | routes/forecast_comparison.py:29-56 | the loop over the years builds exactly the historical lines |
| Comparison.Summarize | routes/forecast_comparison.py:102-111 | the summary loop builds exactly the label-to-statistics map, later lines overwriting earlier ones |
| Comparison.Compare | routes/forecast_comparison.py:17-124 | without a series it fails with status 400; otherwise the result is the lines and summary above, or a status 500 failure when the forecast line asks an unfitted model; the state is only read |

## Left out

- Forecasting library: building, configuring and fitting Prophet and `make_future_dataframe` are not modelled. A fitted model is an arbitrary `predict` function, and fitting is a caller-supplied function that may fail; a table of fewer than two rows always fails to fit.
- Upload.UploadData: the 15th and 85th percentiles Q1 and Q3 are parameters, not computed from the spends, because pandas' interpolated float percentiles are not modelled.
- Upload.SortByDate: an insertion sort, which is stable, models `sort_values`, whose default algorithm is not stable. Rows with equal dates may come out in a different order, which can change the order of the cleaned table but not the daily series.
- Training.MetricsOf: reports mse instead of rmse, because the square root is not modelled. An actual value of zero gives no mape (None), while numpy would give an infinite or undefined float.
- Series.StatsOf: the standard deviation (`std_forecast`) is not modelled.
- Forecasting.GenerateForecast: the route answers with an HTML page. The entries and summary it computes are returned by the model, but the service never sends them.
- Comparison.Compare: the route answers with an HTML page. The summary is computed as modelled but is not part of the response.
- Plotly figures, trace widths, markers, hover templates, titles and the HTML rendering and streaming are not modelled. A line keeps only its label, rows, color and dash style.
- CSV decoding, `pd.to_datetime` string parsing and the `strftime` day and month names (`day_of_week`, `month`) are not modelled. Dates arrive as day numbers, and the `year` of an entry is derived from its date (`Forecasting.Entry.Year`).
- Dates are whole days with no time of day. pandas' Timestamp range (years 1677 to 2262) is not enforced, so the errors pandas raises outside it are not modelled.
- Floating-point behaviour is not modelled: amounts are mathematical reals, and NaN spends or NaN predictions are not represented.
- The state has no locking; the routes are modelled as running one at a time.
- FastAPI routing and pydantic validation are not modelled. Only `1 <= month <= 12` of the comparison request is kept, as a precondition. `models/__init__.py` imports a `ComparisonResponse` that `models/responsemodels.py` does not define.
- state.py, the module holding the shared variables, is not part of this model; its initial values are taken to be `None`, as the routes' checks imply.
