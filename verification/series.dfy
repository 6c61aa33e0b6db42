/**
  Rows of a (date, amount) table, the shape of `state.global_daily_sales` and of
  the cleaned upload, with the filters, sums and summary statistics the routes
  take of them.
*/
module Series {

  /** A day number, as in module Calendar. */
  type Date = int

  /** One row: a `transaction_date` and its `spend`. */
  datatype Row = Row(date: Date, amount: real)

  function DateSet(s: seq<Row>): set<Date> {
    set r | r in s :: r.date
  }

  predicate UniqueDates(s: seq<Row>) {
    forall i, j :: 0 <= i < j < |s| ==> s[i].date != s[j].date
  }

  predicate SortedByDate(s: seq<Row>) {
    forall i, j :: 0 <= i < j < |s| ==> s[i].date <= s[j].date
  }

  predicate StrictlyIncreasing(s: seq<Row>) {
    forall i, j :: 0 <= i < j < |s| ==> s[i].date < s[j].date
  }

  /** The sum of the amounts. */
  function Total(s: seq<Row>): real {
    if s == [] then 0.0 else s[0].amount + Total(s[1..])
  }

  /** The rows that satisfy keep, in their order (a boolean-mask selection `df[mask]`). */
  function Filter(s: seq<Row>, keep: Row -> bool): (r: seq<Row>)
    ensures |r| <= |s|
    ensures forall x :: x in r <==> x in s && keep(x)
  {
    if s == [] then []
    else (if keep(s[0]) then [s[0]] else []) + Filter(s[1..], keep)
  }

  /** Filter unfolded once on a table given as its first row and the rest. */
  lemma FilterCons(x: Row, u: seq<Row>, keep: Row -> bool)
    ensures Filter([x] + u, keep) == (if keep(x) then [x] else []) + Filter(u, keep)
  {
    assert ([x] + u)[0] == x && ([x] + u)[1..] == u;
  }

  lemma {:induction false} FilterAppend(a: seq<Row>, b: seq<Row>, keep: Row -> bool)
    ensures Filter(a + b, keep) == Filter(a, keep) + Filter(b, keep)
  {
    if a != [] {
      assert (a + b)[1..] == a[1..] + b;
      FilterAppend(a[1..], b, keep);
    } else {
      assert a + b == b;
    }
  }

  /**
    Two masks that are each other's negation split a table in two: the parts'
    sizes, sums and contents add up to the whole.
  */
  lemma {:induction false} FilterComplement(s: seq<Row>, keep: Row -> bool, drop: Row -> bool)
    requires forall x :: drop(x) <==> !keep(x)
    ensures |Filter(s, keep)| + |Filter(s, drop)| == |s|
    ensures Total(Filter(s, keep)) + Total(Filter(s, drop)) == Total(s)
    ensures multiset(Filter(s, keep)) + multiset(Filter(s, drop)) == multiset(s)
  {
    if s != [] {
      FilterComplement(s[1..], keep, drop);
      var k, d := Filter(s[1..], keep), Filter(s[1..], drop);
      assert s == [s[0]] + s[1..];
      assert multiset(s) == multiset{s[0]} + multiset(s[1..]);
      if keep(s[0]) {
        assert Filter(s, keep) == [s[0]] + k;
        assert Filter(s, drop) == d;
        TotalCons(s[0], k);
      } else {
        assert Filter(s, keep) == k;
        assert Filter(s, drop) == [s[0]] + d;
        TotalCons(s[0], d);
      }
    }
  }

  lemma TotalCons(x: Row, s: seq<Row>)
    ensures Total([x] + s) == x.amount + Total(s)
  {
    assert ([x] + s)[1..] == s;
  }

  lemma {:induction false} FilterSorted(s: seq<Row>, keep: Row -> bool)
    requires SortedByDate(s)
    ensures SortedByDate(Filter(s, keep))
  {
    if s != [] {
      FilterSorted(s[1..], keep);
      var t := Filter(s[1..], keep);
      assert forall x :: x in t ==> s[0].date <= x.date by {
        forall x | x in t ensures s[0].date <= x.date {
          var k :| 1 <= k < |s| && s[k] == x;
        }
      }
    }
  }

  lemma {:induction false} FilterUnique(s: seq<Row>, keep: Row -> bool)
    requires UniqueDates(s)
    ensures UniqueDates(Filter(s, keep))
  {
    if s != [] {
      FilterUnique(s[1..], keep);
      var t := Filter(s[1..], keep);
      assert forall x :: x in t ==> s[0].date != x.date by {
        forall x | x in t ensures s[0].date != x.date {
          var k :| 1 <= k < |s| && s[k] == x;
        }
      }
    }
  }

  lemma DateSetAppend(a: seq<Row>, b: seq<Row>)
    ensures DateSet(a + b) == DateSet(a) + DateSet(b)
  {
    forall d | d in DateSet(a + b) ensures d in DateSet(a) + DateSet(b) {
      var x :| x in a + b && x.date == d;
    }
    forall d | d in DateSet(a) + DateSet(b) ensures d in DateSet(a + b) {
      if d in DateSet(a) {
        var x :| x in a && x.date == d;
        assert x in a + b;
      } else {
        var x :| x in b && x.date == d;
        assert x in a + b;
      }
    }
  }

  /** Dropping the first row of a table with unique dates keeps them unique, and drops its date. */
  lemma UniqueTail(s: seq<Row>)
    requires s != [] && UniqueDates(s)
    ensures UniqueDates(s[1..])
    ensures s[0].date !in DateSet(s[1..])
    ensures DateSet(s) == {s[0].date} + DateSet(s[1..])
  {
    var t := s[1..];
    forall i, j | 0 <= i < j < |t| ensures t[i].date != t[j].date {
      assert t[i] == s[i + 1] && t[j] == s[j + 1];
    }
    forall x | x in t ensures x.date != s[0].date {
      var k :| 0 <= k < |t| && t[k] == x;
      assert s[k + 1] == x;
    }
    assert s == [s[0]] + t;
    DateSetAppend([s[0]], t);
  }

  lemma IncreasingIsUnique(s: seq<Row>)
    requires StrictlyIncreasing(s)
    ensures UniqueDates(s) && SortedByDate(s)
  {
  }

  /** A table with unique dates has as many distinct dates as rows. */
  lemma {:induction false} UniqueDateCount(s: seq<Row>)
    requires UniqueDates(s)
    ensures |DateSet(s)| == |s|
  {
    if s != [] {
      UniqueDateCount(s[1..]);
      assert DateSet(s) == {s[0].date} + DateSet(s[1..]) by {
        forall x | x in s ensures x == s[0] || x in s[1..] {
          var k :| 0 <= k < |s| && s[k] == x;
          if k > 0 { assert s[1..][k - 1] == x; }
        }
      }
      assert s[0].date !in DateSet(s[1..]) by {
        forall x | x in s[1..] ensures x.date != s[0].date {
          var k :| 0 <= k < |s[1..]| && s[1..][k] == x;
          assert s[k + 1] == x;
        }
      }
    }
  }

  /** The latest date of a non-empty table (`df['transaction_date'].max()`). */
  function MaxDate(s: seq<Row>): (d: Date)
    requires s != []
    ensures d in DateSet(s)
    ensures forall x :: x in s ==> x.date <= d
  {
    if |s| == 1 then s[0].date
    else
      var m := MaxDate(s[1..]);
      if s[0].date >= m then s[0].date else m
  }

  /** The earliest date of a non-empty table (`df['transaction_date'].min()`). */
  function MinDate(s: seq<Row>): (d: Date)
    requires s != []
    ensures d in DateSet(s)
    ensures forall x :: x in s ==> d <= x.date
  {
    if |s| == 1 then s[0].date
    else
      var m := MinDate(s[1..]);
      if s[0].date <= m then s[0].date else m
  }

  // ---------------------------------------------------------------------------
  // Summary statistics of a column of numbers

  function Sum(xs: seq<real>): real {
    if xs == [] then 0.0 else xs[0] + Sum(xs[1..])
  }

  function Largest(xs: seq<real>): (m: real)
    requires xs != []
    ensures m in xs && forall x :: x in xs ==> x <= m
  {
    if |xs| == 1 then xs[0]
    else
      assert xs == [xs[0]] + xs[1..];
      var m := Largest(xs[1..]);
      if xs[0] >= m then xs[0] else m
  }

  function Smallest(xs: seq<real>): (m: real)
    requires xs != []
    ensures m in xs && forall x :: x in xs ==> m <= x
  {
    if |xs| == 1 then xs[0]
    else
      assert xs == [xs[0]] + xs[1..];
      var m := Smallest(xs[1..]);
      if xs[0] <= m then xs[0] else m
  }

  lemma {:induction false} SumBetween(xs: seq<real>, lo: real, hi: real)
    requires forall x :: x in xs ==> lo <= x <= hi
    ensures lo * |xs| as real <= Sum(xs) <= hi * |xs| as real
  {
    if xs != [] {
      var tail := xs[1..];
      assert forall x :: x in tail ==> x in xs;
      SumBetween(tail, lo, hi);
      assert xs[0] in xs;
      var n := |tail| as real;
      assert |xs| as real == n + 1.0;
      assert Sum(xs) == xs[0] + Sum(tail);
      assert lo * (n + 1.0) == lo * n + lo <= Sum(xs);
      assert Sum(xs) <= hi * n + hi == hi * (n + 1.0);
    }
  }

  /** count, sum, mean, min and max of a non-empty column. */
  datatype Stats = Stats(count: nat, total: real, mean: real, min: real, max: real)

  /**
    The statistics pandas reports for a non-empty column: the mean lies between
    the extremes, which are values of the column bounding all of it, and the
    total is the mean times the count.
  */
  function StatsOf(xs: seq<real>): (st: Stats)
    requires xs != []
    ensures st.count == |xs| && st.total == Sum(xs)
    ensures st.min in xs && st.max in xs
    ensures forall x :: x in xs ==> st.min <= x <= st.max
    ensures st.min <= st.mean <= st.max
    ensures st.total == st.mean * st.count as real
  {
    var n := |xs| as real;
    var lo, hi := Smallest(xs), Largest(xs);
    SumBetween(xs, lo, hi);
    MeanBetween(Sum(xs), n, lo, hi);
    Stats(|xs|, Sum(xs), Sum(xs) / n, lo, hi)
  }

  lemma MeanBetween(sum: real, n: real, lo: real, hi: real)
    requires n > 0.0 && lo * n <= sum <= hi * n
    ensures lo <= sum / n <= hi && sum == sum / n * n
  {
    var mean := sum / n;
    assert mean * n == sum;
    assert (mean - lo) * n == sum - lo * n;
    assert (hi - mean) * n == hi * n - sum;
  }

  /** The amount column of a table. */
  function Amounts(s: seq<Row>): (xs: seq<real>)
    ensures |xs| == |s| && forall k :: 0 <= k < |s| ==> xs[k] == s[k].amount
  {
    seq(|s|, k requires 0 <= k < |s| => s[k].amount)
  }

  lemma {:induction false} SumOfAmounts(s: seq<Row>)
    ensures Sum(Amounts(s)) == Total(s)
  {
    if s != [] {
      SumOfAmounts(s[1..]);
      assert Amounts(s)[1..] == Amounts(s[1..]);
    }
  }
}
