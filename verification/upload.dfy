/**
  The upload route (`POST /upload-data`): check the header, sort by date, split
  the rows into outliers and clean rows by the 2·IQR fences, sum the clean rows
  per day, and replace the shared series and cleaned rows with the result.
*/
module Upload {
  import opened Wrappers
  import opened Series
  import opened SharedState

  const DateColumn: string := "transaction_date"
  const SpendColumn: string := "spend"

  /** A parsed CSV file: its header and its rows, dates already converted. */
  datatype CsvTable = CsvTable(columns: seq<string>, rows: seq<Row>)

  predicate HasRequiredColumns(t: CsvTable) {
    DateColumn in t.columns && SpendColumn in t.columns
  }

  // ---------------------------------------------------------------------------
  // Sorting by date

  /** x placed before the first row whose date is not earlier than its own. */
  function Insert(x: Row, s: seq<Row>): (r: seq<Row>)
    ensures multiset(r) == multiset{x} + multiset(s)
  {
    if s == [] || x.date <= s[0].date then [x] + s
    else
      assert s == [s[0]] + s[1..];
      [s[0]] + Insert(x, s[1..])
  }

  lemma {:induction false} InsertSorted(x: Row, s: seq<Row>)
    requires SortedByDate(s)
    ensures SortedByDate(Insert(x, s))
  {
    if s != [] && x.date > s[0].date {
      var t := Insert(x, s[1..]);
      InsertSorted(x, s[1..]);
      forall y | y in t ensures s[0].date <= y.date {
        assert y in multiset(t);
        if y != x {
          assert y in multiset(s[1..]);
          var k :| 0 <= k < |s[1..]| && s[1..][k] == y;
          assert s[k + 1] == y;
        }
      }
    }
  }

  /** `df.sort_values(by='transaction_date')`, as an insertion sort. */
  function SortByDate(s: seq<Row>): (r: seq<Row>)
    ensures SortedByDate(r)
    ensures multiset(r) == multiset(s) && |r| == |s|
  {
    if s == [] then []
    else
      assert s == [s[0]] + s[1..];
      InsertSorted(s[0], SortByDate(s[1..]));
      Insert(s[0], SortByDate(s[1..]))
  }

  // ---------------------------------------------------------------------------
  // Outliers

  datatype Bounds = Bounds(lower: real, upper: real)

  /**
    The fences Q1 - 2·IQR and Q3 + 2·IQR, where Q1 and Q3 are the 15th and 85th
    percentiles of the spends. They lie 5·IQR apart, and whenever Q1 <= Q3 (as
    percentiles are) they enclose [Q1, Q3].
  */
  function OutlierBounds(q1: real, q3: real): (b: Bounds)
    ensures b.upper - b.lower == 5.0 * (q3 - q1)
    ensures q1 <= q3 ==> b.lower <= q1 && q3 <= b.upper
  {
    var iqr := q3 - q1;
    Bounds(q1 - 2.0 * iqr, q3 + 2.0 * iqr)
  }

  predicate IsOutlier(b: Bounds, spend: real) {
    spend < b.lower || spend > b.upper
  }

  predicate IsClean(b: Bounds, spend: real) {
    spend >= b.lower && spend <= b.upper
  }

  function Outliers(rows: seq<Row>, b: Bounds): seq<Row> {
    Filter(rows, (x: Row) => IsOutlier(b, x.amount))
  }

  function CleanRows(rows: seq<Row>, b: Bounds): seq<Row> {
    Filter(rows, (x: Row) => IsClean(b, x.amount))
  }

  /**
    The two selections of the route split the table: a row is clean exactly
    when it is not an outlier, so outliers and clean rows add up to the whole
    table, in count, in sum and as a multiset.
  */
  lemma OutliersAndCleanPartition(rows: seq<Row>, b: Bounds)
    ensures |Outliers(rows, b)| + |CleanRows(rows, b)| == |rows|
    ensures Total(Outliers(rows, b)) + Total(CleanRows(rows, b)) == Total(rows)
    ensures multiset(Outliers(rows, b)) + multiset(CleanRows(rows, b)) == multiset(rows)
    ensures forall x :: x in rows ==> (x in CleanRows(rows, b) <==> b.lower <= x.amount <= b.upper)
    ensures forall x :: x in rows ==> (x in Outliers(rows, b) <==> !(x in CleanRows(rows, b)))
  {
    FilterComplement(rows, (x: Row) => IsOutlier(b, x.amount), (x: Row) => IsClean(b, x.amount));
  }

  /** Every row between the two percentiles survives the cleaning. */
  lemma QuartileRowsAreClean(rows: seq<Row>, q1: real, q3: real)
    requires q1 <= q3
    ensures forall x :: x in rows && q1 <= x.amount <= q3 ==> x in CleanRows(rows, OutlierBounds(q1, q3))
  {
  }

  // ---------------------------------------------------------------------------
  // Daily aggregation

  /**
    `df.groupby('transaction_date')['spend'].sum().reset_index()` on rows sorted
    by date: runs of equal dates merged into one row carrying their sum.
  */
  function DailySeries(s: seq<Row>): (g: seq<Row>)
    ensures |g| <= |s|
    ensures DateSet(g) == DateSet(s)
    ensures s != [] ==> g != [] && g[0].date == s[0].date
  {
    if s == [] then []
    else
      assert s == [s[0]] + s[1..];
      assert DateSet(s) == {s[0].date} + DateSet(s[1..]);
      AddRow(s[0], DailySeries(s[1..]))
  }

  /** One row added in front of a daily series: merged into the first day when it has the same date. */
  function AddRow(x: Row, g: seq<Row>): (r: seq<Row>)
    ensures |r| <= |g| + 1
    ensures DateSet(r) == {x.date} + DateSet(g)
    ensures r[0].date == x.date
  {
    if g != [] && g[0].date == x.date then
      assert g == [g[0]] + g[1..];
      [Row(x.date, x.amount + g[0].amount)] + g[1..]
    else
      [x] + g
  }

  /** Adding a row no later than any day of a strictly increasing series keeps it strictly increasing. */
  lemma AddRowIncreasing(x: Row, g: seq<Row>)
    requires StrictlyIncreasing(g)
    requires forall y :: y in g ==> x.date <= y.date
    ensures StrictlyIncreasing(AddRow(x, g))
  {
    var r := AddRow(x, g);
    if g != [] && g[0].date == x.date {
      forall i, j | 0 <= i < j < |r| ensures r[i].date < r[j].date {
        assert r[j] == g[j];
        if i > 0 {
          assert r[i] == g[i];
        }
      }
    } else {
      forall i, j | 0 <= i < j < |r| ensures r[i].date < r[j].date {
        assert r[j] == g[j - 1];
        if i > 0 {
          assert r[i] == g[i - 1];
        } else {
          assert g[0] in g && g[0].date <= g[j - 1].date;
        }
      }
    }
  }

  /** The total spend of the rows dated d. */
  function DayTotal(s: seq<Row>, d: Date): real {
    if s == [] then 0.0
    else (if s[0].date == d then s[0].amount else 0.0) + DayTotal(s[1..], d)
  }

  lemma {:induction false} DayTotalAbsent(s: seq<Row>, d: Date)
    requires d !in DateSet(s)
    ensures DayTotal(s, d) == 0.0
  {
    if s != [] {
      assert s[0] in s;
      assert DateSet(s[1..]) <= DateSet(s);
      DayTotalAbsent(s[1..], d);
    }
  }

  /** On sorted rows the daily series has one row per date, dates strictly increasing. */
  lemma {:induction false} DailySeriesIncreasing(s: seq<Row>)
    requires SortedByDate(s)
    ensures StrictlyIncreasing(DailySeries(s))
  {
    if s != [] {
      var rest := DailySeries(s[1..]);
      DailySeriesIncreasing(s[1..]);
      assert forall x :: x in rest ==> s[0].date <= x.date by {
        forall x | x in rest ensures s[0].date <= x.date {
          assert x.date in DateSet(s[1..]);
          var y :| y in s[1..] && y.date == x.date;
          var k :| 0 <= k < |s[1..]| && s[1..][k] == y;
          assert s[k + 1] == y;
        }
      }
      AddRowIncreasing(s[0], rest);
    }
  }

  /** On sorted rows each day's amount is the sum of that day's spends. */
  lemma {:induction false} DailySeriesSums(s: seq<Row>)
    requires SortedByDate(s)
    ensures forall k :: 0 <= k < |DailySeries(s)| ==>
              DailySeries(s)[k].amount == DayTotal(s, DailySeries(s)[k].date)
  {
    if s != [] {
      var rest := DailySeries(s[1..]);
      var g := DailySeries(s);
      DailySeriesSums(s[1..]);
      DailySeriesIncreasing(s[1..]);
      var d := s[0].date;
      if rest != [] && rest[0].date == d {
        forall k | 0 <= k < |g| ensures g[k].amount == DayTotal(s, g[k].date) {
          if k > 0 {
            assert g[k] == rest[k];
            assert rest[0].date < rest[k].date;
          }
        }
      } else {
        assert d !in DateSet(s[1..]);
        DayTotalAbsent(s[1..], d);
        forall k | 0 <= k < |g| ensures g[k].amount == DayTotal(s, g[k].date) {
          if k > 0 {
            assert g[k] == rest[k - 1];
            assert g[k].date in DateSet(s[1..]);
          }
        }
      }
    }
  }

  /** Grouping neither loses nor invents spend. */
  lemma {:induction false} DailySeriesTotal(s: seq<Row>)
    ensures Total(DailySeries(s)) == Total(s)
  {
    if s != [] {
      var rest := DailySeries(s[1..]);
      DailySeriesTotal(s[1..]);
      if rest != [] && rest[0].date == s[0].date {
        assert rest == [rest[0]] + rest[1..];
        TotalCons(rest[0], rest[1..]);
        TotalCons(Row(s[0].date, s[0].amount + rest[0].amount), rest[1..]);
      } else {
        TotalCons(s[0], rest);
      }
    }
  }

  // ---------------------------------------------------------------------------
  // The route

  /** On rows sorted by date the daily series of the clean rows has one row per distinct clean date. */
  lemma DailyRecordsCount(rows: seq<Row>, b: Bounds)
    ensures SortedByDate(rows) ==> |DailySeries(CleanRows(rows, b))| == |DateSet(CleanRows(rows, b))|
  {
    if SortedByDate(rows) {
      var clean := CleanRows(rows, b);
      FilterSorted(rows, (x: Row) => IsClean(b, x.amount));
      DailySeriesIncreasing(clean);
      IncreasingIsUnique(DailySeries(clean));
      UniqueDateCount(DailySeries(clean));
    }
  }

  /** The JSON body of a successful upload; `dateRange` None stands for pandas' NaT. */
  datatype UploadReport = UploadReport(
    totalRecords: nat,
    outliersRemoved: nat,
    cleanRecords: nat,
    dailyRecords: nat,
    dateRange: Option<(Date, Date)>)

  /**
    The counts reported for rows cleaned by b: the outliers and the clean rows
    are counted from the two selections and add up to the total; the daily
    series is no longer than the clean rows and, on rows sorted by date, has one
    row per distinct clean date; the date range is present exactly when some
    row is clean, and then runs from the earliest to the latest clean date.
  */
  function Report(rows: seq<Row>, b: Bounds): (r: UploadReport)
    ensures r.totalRecords == |rows|
    ensures r.outliersRemoved == |Outliers(rows, b)| && r.cleanRecords == |CleanRows(rows, b)|
    ensures r.outliersRemoved + r.cleanRecords == r.totalRecords
    ensures r.dailyRecords <= r.cleanRecords <= r.totalRecords
    ensures SortedByDate(rows) ==> r.dailyRecords == |DateSet(CleanRows(rows, b))|
    ensures r.dateRange.Some? <==> CleanRows(rows, b) != []
    ensures r.dateRange.Some? ==>
              var (lo, hi) := r.dateRange.value;
              && lo in DateSet(CleanRows(rows, b)) && hi in DateSet(CleanRows(rows, b))
              && forall x :: x in CleanRows(rows, b) ==> lo <= x.date <= hi
  {
    var clean := CleanRows(rows, b);
    OutliersAndCleanPartition(rows, b);
    DailyRecordsCount(rows, b);
    UploadReport(
      |rows|,
      |Outliers(rows, b)|,
      |clean|,
      |DailySeries(clean)|,
      if clean == [] then None else Some((MinDate(clean), MaxDate(clean))))
  }

  /**
    `upload_data`: a file without both required columns fails (the error is
    raised inside the handler's `try` and comes back as "Error processing
    file", status 400) and leaves the state alone. Otherwise the shared series
    and cleaned rows are REPLACED by ones computed from this file alone, so
    uploading the same file twice leaves the same series; the model slot is
    not touched.
  */
  method UploadData(st: State, file: CsvTable, q1: real, q3: real) returns (r: Result<UploadReport, Error>)
    requires st.Valid()
    modifies st
    ensures st.Valid()
    ensures r.Failure? ==> Status(r.error) == 400
    ensures !HasRequiredColumns(file) ==>
              r == Failure(Failed(UploadRoute, MissingColumns)) && unchanged(st)
    ensures HasRequiredColumns(file) ==>
              var sorted := SortByDate(file.rows);
              var b := OutlierBounds(q1, q3);
              && st.dailySales == Some(DailySeries(CleanRows(sorted, b)))
              && st.cleanData == Some(CleanRows(sorted, b))
              && st.model == old(st.model)
              && r == Success(Report(sorted, b))
  {
    if !HasRequiredColumns(file) {
      return Failure(Failed(UploadRoute, MissingColumns));
    }
    var sorted := SortByDate(file.rows);
    var b := OutlierBounds(q1, q3);
    var clean := CleanRows(sorted, b);
    FilterSorted(sorted, (x: Row) => IsClean(b, x.amount));
    DailySeriesIncreasing(clean);
    IncreasingIsUnique(DailySeries(clean));
    st.dailySales := Some(DailySeries(clean));
    st.cleanData := Some(clean);
    r := Success(Report(sorted, b));
  }
}
