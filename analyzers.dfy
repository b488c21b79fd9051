/** Batch metrics over validated deals (src/analyzers.py, DataAnalyzer.calculate_metrics). */
module Analyzers {
  import opened Rules
  import opened Validators

  datatype Option<T> = None | Some(value: T)

  /** The metrics dictionary; `averageRate` is None where pandas' mean of no rows is NaN. */
  datatype Metrics = Metrics(
    totalCommissions: real,
    averageRate: Option<real>,
    totalDeals: nat,
    flaggedCount: nat)

  /** Sum of `commission_amount` over the batch; no negative amount, no negative total. */
  function TotalCommissions(rows: seq<Record>): (r: real)
    ensures (forall i :: 0 <= i < |rows| ==> rows[i].commissionAmount >= 0.0) ==> r >= 0.0
  {
    if rows == [] then 0.0 else rows[0].commissionAmount + TotalCommissions(rows[1..])
  }

  /** Sum of `commission_rate` over the batch; no negative rate, no negative total. */
  function TotalRates(rows: seq<Record>): (r: real)
    ensures (forall i :: 0 <= i < |rows| ==> rows[i].commissionRate >= 0.0) ==> r >= 0.0
  {
    if rows == [] then 0.0 else rows[0].commissionRate + TotalRates(rows[1..])
  }

  /** The flattened comprehension `[issue for row in rows for issue in validate(row)]`. */
  function AllIssues(rules: map<string, Tier>, rows: seq<Record>): (r: seq<Issue>)
    ensures |r| <= 3 * |rows|
  {
    if rows == [] then [] else Issues(rules, rows[0]) + AllIssues(rules, rows[1..])
  }

  /** Sum over the batch of the number of issues of each row. */
  function IssueCountSum(rules: map<string, Tier>, rows: seq<Record>): nat {
    if rows == [] then 0 else |Issues(rules, rows[0])| + IssueCountSum(rules, rows[1..])
  }

  /** Number of rows with at least one issue (the rows shown as FAIL). */
  function FailingRows(rules: map<string, Tier>, rows: seq<Record>): nat {
    if rows == [] then 0
    else (if Passes(rules, rows[0]) then 0 else 1) + FailingRows(rules, rows[1..])
  }

  /** The length of the comprehension is the sum of the per-row issue counts. */
  lemma {:induction false} FlaggedIsIssueSum(rules: map<string, Tier>, rows: seq<Record>)
    ensures |AllIssues(rules, rows)| == IssueCountSum(rules, rows)
  {
    if rows != [] {
      FlaggedIsIssueSum(rules, rows[1..]);
    }
  }

  /** Every failing row adds at least one issue, and no row adds more than three. */
  lemma {:induction false} FlaggedBounds(rules: map<string, Tier>, rows: seq<Record>)
    ensures FailingRows(rules, rows) <= |AllIssues(rules, rows)| <= 3 * |rows|
  {
    if rows != [] {
      FlaggedBounds(rules, rows[1..]);
      var r := Issues(rules, rows[0]);
      assert |r| <= 3;
    }
  }

  /** The sums over a batch split in two are the sums over the halves. */
  lemma {:induction false} TotalsOfConcat(a: seq<Record>, b: seq<Record>)
    ensures TotalCommissions(a + b) == TotalCommissions(a) + TotalCommissions(b)
    ensures TotalRates(a + b) == TotalRates(a) + TotalRates(b)
  {
    if a == [] {
      assert a + b == b;
    } else {
      TotalsOfConcat(a[1..], b);
      assert (a + b)[1..] == a[1..] + b;
    }
  }

  /** The issues of a batch split in two are those of the first half followed by those of the second. */
  lemma {:induction false} IssuesOfConcat(rules: map<string, Tier>, a: seq<Record>, b: seq<Record>)
    ensures AllIssues(rules, a + b) == AllIssues(rules, a) + AllIssues(rules, b)
  {
    if a == [] {
      assert a + b == b;
    } else {
      IssuesOfConcat(rules, a[1..], b);
      assert (a + b)[1..] == a[1..] + b;
    }
  }

  /** When every rate lies in [lo, hi], the rate sum lies between n * lo and n * hi. */
  lemma {:induction false} RateSumBounds(rows: seq<Record>, lo: real, hi: real)
    requires forall i :: 0 <= i < |rows| ==> lo <= rows[i].commissionRate <= hi
    ensures |rows| as real * lo <= TotalRates(rows) <= |rows| as real * hi
  {
    if rows != [] {
      RateSumBounds(rows[1..], lo, hi);
      assert |rows| as real * lo == (|rows| - 1) as real * lo + lo;
      assert |rows| as real * hi == (|rows| - 1) as real * hi + hi;
    }
  }

  /** The average rate of a non-empty batch lies between its smallest and largest possible rate. */
  lemma AverageWithinBounds(rules: map<string, Tier>, rows: seq<Record>, lo: real, hi: real)
    requires rows != []
    requires forall i :: 0 <= i < |rows| ==> lo <= rows[i].commissionRate <= hi
    ensures var avg := CalculateMetrics(rules, rows).averageRate;
      avg.Some? && lo <= avg.value <= hi
  {
    var n, t := |rows| as real, TotalRates(rows);
    RateSumBounds(rows, lo, hi);
    DivisionBounds(t, n, lo, hi);
    assert CalculateMetrics(rules, rows).averageRate == Some(t / n);
  }

  lemma DivisionBounds(t: real, n: real, lo: real, hi: real)
    requires n > 0.0 && n * lo <= t <= n * hi
    ensures lo <= t / n <= hi
  {
    assert t / n * n == t;
  }

  /** `calculate_metrics(df, validator)` where `rules` are the rules the validator reads. */
  function CalculateMetrics(rules: map<string, Tier>, rows: seq<Record>): (m: Metrics)
    ensures m.totalDeals == |rows|
    ensures m.totalCommissions == TotalCommissions(rows)
    ensures m.flaggedCount == IssueCountSum(rules, rows)
    ensures FailingRows(rules, rows) <= m.flaggedCount <= 3 * m.totalDeals
    ensures rows == [] ==> m == Metrics(0.0, None, 0, 0)
    ensures rows != [] ==> m.averageRate == Some(TotalRates(rows) / |rows| as real)
  {
    FlaggedIsIssueSum(rules, rows);
    FlaggedBounds(rules, rows);
    Metrics(
      TotalCommissions(rows),
      if rows == [] then None else Some(TotalRates(rows) / |rows| as real),
      |rows|,
      |AllIssues(rules, rows)|)
  }

  /** `flagged_count` counts issues, not failing rows: one deal with two issues counts twice. */
  lemma FlaggedCountsIssues()
    ensures var rows := [Record("D2", "rep", "region", "standard", 10000.0, 0.05, 2000.0)];
      && CalculateMetrics(DefaultTable().rules, rows).flaggedCount == 2
      && FailingRows(DefaultTable().rules, rows) == 1
  {
  }
}
