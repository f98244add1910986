/** The reports `app.py` builds from the ledger: a user's totals per month
    (`get_user_month_totals`), the "get all" listing with its grand total,
    and the history total of the administrator's "user" command. Each loop
    of the source is a method proved against a specification function over
    the rows. */
module Reports {
  import opened Common
  import opened Ledger

  // ---------------------------------------------------------------------
  // Specification functions over a list of rows

  /** The months that occur in `history`. */
  function MonthsOf(history: seq<Row>): set<YearMonth>
  {
    set r | r in history :: r.month
  }

  /** A history has no months exactly when it has no rows. */
  lemma MonthsOfEmpty(s: seq<Row>)
    ensures MonthsOf(s) == {} <==> s == []
  {
    if s != [] {
      assert s[0].month in MonthsOf(s);
    }
  }

  /** Reversing a history keeps its months. */
  lemma MonthsOfReverse(s: seq<Row>)
    ensures MonthsOf(Reverse(s)) == MonthsOf(s)
  {
    forall r ensures r in Reverse(s) <==> r in s {
      ReverseMembers(s, r);
    }
  }

  /** The sum of the amounts of the rows of month `m`. */
  function MonthSum(history: seq<Row>, m: YearMonth): real
  {
    if history == [] then 0.0
    else
      var last := history[|history| - 1];
      MonthSum(history[..|history| - 1], m) + (if last.month == m then last.amount else 0.0)
  }

  /** The sum of all amounts. */
  function HistorySum(history: seq<Row>): real
  {
    if history == [] then 0.0
    else HistorySum(history[..|history| - 1]) + history[|history| - 1].amount
  }

  // ---------------------------------------------------------------------
  // `get_user_month_totals`

  /** `get_user_month_totals`: the user's history, bucketed by month. One
      key per month present in the history, each holding that month's sum,
      which is what `get_monthly_total` reports for the same user and month. */
  method UserMonthTotals(store: LedgerStore, p: Phone) returns (totals: map<YearMonth, real>)
    ensures Bucketed(totals, Reverse(RowsOf(store.amounts, p)))
    ensures forall m :: m in totals ==> totals[m] == MonthlyTotal(store.amounts, p, m)
  {
    var history := store.GetUserHistory(p);
    totals := BucketByMonth(history);
    BucketedMonthlyTotal(totals, store.amounts, p);
  }

  /** The loop of `get_user_month_totals` over the rows of a history. */
  method BucketByMonth(history: seq<Row>) returns (totals: map<YearMonth, real>)
    ensures Bucketed(totals, history)
  {
    totals := map[];
    var i := 0;
    while i < |history|
      invariant 0 <= i <= |history|
      invariant Bucketed(totals, history[..i])
    {
      var r := history[i];
      ghost var before := totals;
      if r.month !in totals {
        totals := totals[r.month := 0.0];
      }
      totals := totals[r.month := totals[r.month] + r.amount];
      assert totals == before[r.month := (if r.month in before then before[r.month] else 0.0) + r.amount];
      assert history[..i + 1] == history[..i] + [r];
      BucketStep(before, history[..i], r);
      i := i + 1;
    }
    assert history[..i] == history;
  }

  lemma BucketedMonthlyTotal(totals: map<YearMonth, real>, rows: seq<Row>, p: Phone)
    requires Bucketed(totals, Reverse(RowsOf(rows, p)))
    ensures forall m :: m in totals ==> totals[m] == MonthlyTotal(rows, p, m)
  {
    forall m | m in totals ensures totals[m] == MonthlyTotal(rows, p, m) {
      HistoryMonthSum(rows, p, m);
    }
  }

  /** `totals` holds, for each month of `history`, that month's sum. */
  predicate Bucketed(totals: map<YearMonth, real>, history: seq<Row>)
  {
    && totals.Keys == MonthsOf(history)
    && forall m :: m in totals ==> totals[m] == MonthSum(history, m)
  }

  /** One more row: its month's bucket is created at zero if missing and
      then grows by the row's amount. */
  lemma BucketStep(totals: map<YearMonth, real>, history: seq<Row>, r: Row)
    requires Bucketed(totals, history)
    ensures Bucketed(totals[r.month := (if r.month in totals then totals[r.month] else 0.0) + r.amount], history + [r])
  {
    assert (history + [r])[..|history|] == history;
    if r.month !in totals {
      MonthSumAbsent(history, r.month);
    }
    var h := history + [r];
    assert MonthsOf(h) == MonthsOf(history) + {r.month} by {
      forall x | x in MonthsOf(h) ensures x in MonthsOf(history) + {r.month} {
        var w :| w in h && w.month == x;
      }
      assert r in h;
      forall x | x in MonthsOf(history) ensures x in MonthsOf(h) {
        var w :| w in history && w.month == x;
        assert w in h;
      }
    }
  }

  lemma {:induction false} MonthSumAbsent(history: seq<Row>, m: YearMonth)
    requires m !in MonthsOf(history)
    ensures MonthSum(history, m) == 0.0
  {
    if history != [] {
      var init := history[..|history| - 1];
      assert history == init + [history[|history| - 1]];
      assert MonthsOf(init) <= MonthsOf(history);
      MonthSumAbsent(init, m);
    }
  }

  lemma {:induction false} MonthSumConcat(a: seq<Row>, b: seq<Row>, m: YearMonth)
    ensures MonthSum(a + b, m) == MonthSum(a, m) + MonthSum(b, m)
  {
    if b == [] {
      assert a + b == a;
    } else {
      var init := b[..|b| - 1];
      assert (a + b)[..|a + b| - 1] == a + init;
      MonthSumConcat(a, init, m);
    }
  }

  lemma {:induction false} MonthSumReverse(s: seq<Row>, m: YearMonth)
    ensures MonthSum(Reverse(s), m) == MonthSum(s, m)
  {
    if s != [] {
      var init, last := s[..|s| - 1], s[|s| - 1];
      MonthSumConcat([last], Reverse(init), m);
      MonthSumReverse(init, m);
      assert [last][..0] == [];
    }
  }

  lemma {:induction false} MonthSumRowsOf(rows: seq<Row>, p: Phone, m: YearMonth)
    ensures MonthSum(RowsOf(rows, p), m) == MonthlyTotal(rows, p, m)
  {
    if rows != [] {
      var init, last := rows[..|rows| - 1], rows[|rows| - 1];
      MonthSumRowsOf(init, p, m);
      MonthSumConcat(RowsOf(init, p), if last.phone == p then [last] else [], m);
      if last.phone == p {
        assert [last][..0] == [];
      }
    }
  }

  /** Bucketing the history by month agrees with the ledger's own monthly
      total: `get_user_month_totals(p)[m] == get_monthly_total(p, m)`. */
  lemma HistoryMonthSum(rows: seq<Row>, p: Phone, m: YearMonth)
    ensures MonthSum(Reverse(RowsOf(rows, p)), m) == MonthlyTotal(rows, p, m)
  {
    MonthSumReverse(RowsOf(rows, p), m);
    MonthSumRowsOf(rows, p, m);
  }

  // ---------------------------------------------------------------------
  // "get all"

  datatype MonthLine = MonthLine(month: YearMonth, total: real)

  /** The reply to "get all": nothing recorded, or one line per month, latest
      first, and the grand total. */
  datatype AllReport = NoTransactionsFound | AllTotals(lines: seq<MonthLine>, grandTotal: real)

  function LineMonths(lines: seq<MonthLine>): set<YearMonth>
  {
    set l | l in lines :: l.month
  }

  function LinesSum(lines: seq<MonthLine>): real
  {
    if lines == [] then 0.0 else LinesSum(lines[..|lines| - 1]) + lines[|lines| - 1].total
  }

  /** Months listed latest first, each at most once. */
  predicate Descending(lines: seq<MonthLine>)
  {
    forall i, j :: 0 <= i < j < |lines| ==> Before(lines[j].month, lines[i].month)
  }

  predicate IsLatest(m: YearMonth, s: set<YearMonth>)
  {
    m in s && forall x :: x in s && x != m ==> Before(x, m)
  }

  lemma {:induction false} LatestExists(s: set<YearMonth>)
    requires s != {}
    ensures exists m :: IsLatest(m, s)
  {
    var y :| y in s;
    if s == {y} {
      assert IsLatest(y, s);
    } else {
      LatestExists(s - {y});
      var m :| IsLatest(m, s - {y});
      BeforeIsStrictTotalOrder(y, m, y);
      if Before(y, m) {
        assert IsLatest(m, s);
      } else {
        forall x | x in s && x != y ensures Before(x, y) {
          BeforeIsStrictTotalOrder(x, m, y);
        }
        assert IsLatest(y, s);
      }
    }
  }

  /** Appending the latest of the months still to list keeps the listing
      descending and every listed month after every remaining one. */
  lemma ExtendListing(lines: seq<MonthLine>, remaining: set<YearMonth>, m: YearMonth, t: real)
    requires Descending(lines) && ListedAfter(lines, remaining)
    requires IsLatest(m, remaining)
    ensures Descending(lines + [MonthLine(m, t)])
    ensures ListedAfter(lines + [MonthLine(m, t)], remaining - {m})
  {
  }

  /** Every listed month comes after every month still to be listed. */
  predicate ListedAfter(lines: seq<MonthLine>, remaining: set<YearMonth>)
  {
    forall i, x :: 0 <= i < |lines| && x in remaining ==> Before(x, lines[i].month)
  }

  /** Every listed month is a key and carries that key's total. */
  predicate LinesMatch(lines: seq<MonthLine>, totals: map<YearMonth, real>)
  {
    forall i :: 0 <= i < |lines| ==> lines[i].month in totals && lines[i].total == totals[lines[i].month]
  }

  lemma LinesMatchAppend(lines: seq<MonthLine>, totals: map<YearMonth, real>, m: YearMonth)
    requires LinesMatch(lines, totals) && m in totals
    ensures LinesMatch(lines + [MonthLine(m, totals[m])], totals)
  {
  }

  /** The state of the listing loop: `lines` lists, latest first, the keys
      not in `remaining`, all of which come after the remaining ones, and
      `grandTotal` is the sum of the listed totals. */
  predicate Listing(lines: seq<MonthLine>, remaining: set<YearMonth>, totals: map<YearMonth, real>, grandTotal: real)
  {
    && remaining <= totals.Keys
    && LineMonths(lines) + remaining == totals.Keys
    && Descending(lines)
    && ListedAfter(lines, remaining)
    && LinesMatch(lines, totals)
    && grandTotal == LinesSum(lines)
  }

  lemma ListingStep(lines: seq<MonthLine>, remaining: set<YearMonth>, totals: map<YearMonth, real>, grandTotal: real, m: YearMonth)
    requires Listing(lines, remaining, totals, grandTotal)
    requires IsLatest(m, remaining)
    ensures Listing(lines + [MonthLine(m, totals[m])], remaining - {m}, totals, grandTotal + totals[m])
  {
    var line := MonthLine(m, totals[m]);
    ExtendListing(lines, remaining, m, totals[m]);
    LineMonthsAppend(lines, line);
    LinesMatchAppend(lines, totals, m);
    assert (lines + [line])[..|lines|] == lines;
  }

  /** `sorted(monthly_totals.keys(), reverse=True)` and the loop that lists
      each month's total and accumulates `grand_total`. */
  method AllMonthsReport(totals: map<YearMonth, real>) returns (report: AllReport)
    ensures report.NoTransactionsFound? <==> totals == map[]
    ensures report.AllTotals? ==>
              && Descending(report.lines)
              && LineMonths(report.lines) == totals.Keys
              && LinesMatch(report.lines, totals)
              && report.grandTotal == LinesSum(report.lines)
  {
    if totals == map[] {
      return NoTransactionsFound;
    }
    var remaining := totals.Keys;
    var lines: seq<MonthLine> := [];
    var grandTotal := 0.0;
    while remaining != {}
      invariant Listing(lines, remaining, totals, grandTotal)
      decreases |remaining|
    {
      LatestExists(remaining);
      var m :| IsLatest(m, remaining);
      ListingStep(lines, remaining, totals, grandTotal, m);
      lines := lines + [MonthLine(m, totals[m])];
      grandTotal := grandTotal + totals[m];
      remaining := remaining - {m};
    }
    report := AllTotals(lines, grandTotal);
  }

  /** The sum, over the listed months, of each month's total in `history`. */
  function SumMonths(history: seq<Row>, lines: seq<MonthLine>): real
  {
    if lines == [] then 0.0
    else SumMonths(history, lines[..|lines| - 1]) + MonthSum(history, lines[|lines| - 1].month)
  }

  lemma {:induction false} SumMonthsEmpty(lines: seq<MonthLine>)
    ensures SumMonths([], lines) == 0.0
  {
    if lines != [] {
      SumMonthsEmpty(lines[..|lines| - 1]);
    }
  }

  lemma LineMonthsAppend(lines: seq<MonthLine>, l: MonthLine)
    ensures LineMonths(lines + [l]) == LineMonths(lines) + {l.month}
  {
    var lhs, rhs := LineMonths(lines + [l]), LineMonths(lines) + {l.month};
    forall x | x in lhs ensures x in rhs {
      var k :| k in lines + [l] && k.month == x;
    }
    forall x | x in rhs ensures x in lhs {
      if x != l.month {
        var k :| k in lines && k.month == x;
        assert k in lines + [l];
      } else {
        assert l in lines + [l];
      }
    }
  }

  /** The last month of a descending listing is not listed before it. */
  lemma DescendingLastNew(lines: seq<MonthLine>)
    requires Descending(lines) && lines != []
    ensures lines[|lines| - 1].month !in LineMonths(lines[..|lines| - 1])
  {
    var init, last := lines[..|lines| - 1], lines[|lines| - 1];
    forall l | l in init ensures l.month != last.month {
      var k :| 0 <= k < |init| && init[k] == l;
      assert Before(lines[|lines| - 1].month, lines[k].month);
      BeforeIsStrictTotalOrder(last.month, last.month, last.month);
    }
  }

  /** A new row adds its amount exactly once when its month is listed once. */
  lemma {:induction false} SumMonthsAppendRow(history: seq<Row>, r: Row, lines: seq<MonthLine>)
    requires Descending(lines)
    ensures SumMonths(history + [r], lines) == SumMonths(history, lines) + (if r.month in LineMonths(lines) then r.amount else 0.0)
  {
    if lines != [] {
      var init, last := lines[..|lines| - 1], lines[|lines| - 1];
      assert Descending(init);
      SumMonthsAppendRow(history, r, init);
      assert (history + [r])[..|history|] == history;
      assert lines == init + [last];
      LineMonthsAppend(init, last);
      DescendingLastNew(lines);
    }
  }

  /** The grand total of a listing that covers every month of the history
      once is the sum of the whole history. */
  lemma {:induction false} GrandTotalIsHistorySum(history: seq<Row>, lines: seq<MonthLine>)
    requires Descending(lines)
    requires MonthsOf(history) <= LineMonths(lines)
    ensures SumMonths(history, lines) == HistorySum(history)
  {
    if history == [] {
      SumMonthsEmpty(lines);
    } else {
      var init, last := history[..|history| - 1], history[|history| - 1];
      assert history == init + [last];
      assert MonthsOf(init) <= MonthsOf(history);
      assert last.month in MonthsOf(history);
      GrandTotalIsHistorySum(init, lines);
      SumMonthsAppendRow(init, last, lines);
    }
  }

  lemma {:induction false} LinesSumIsSumMonths(history: seq<Row>, lines: seq<MonthLine>)
    requires forall i :: 0 <= i < |lines| ==> lines[i].total == MonthSum(history, lines[i].month)
    ensures LinesSum(lines) == SumMonths(history, lines)
  {
    if lines != [] {
      LinesSumIsSumMonths(history, lines[..|lines| - 1]);
    }
  }

  /** "get all" over a user's month totals: the listed months are exactly
      the months of the user's rows, latest first, and the grand total is
      the sum of every amount the user ever recorded. */
  lemma GetAllGrandTotal(rows: seq<Row>, p: Phone, totals: map<YearMonth, real>, report: AllReport)
    requires Bucketed(totals, Reverse(RowsOf(rows, p)))
    requires report.AllTotals?
    requires Descending(report.lines) && LineMonths(report.lines) == totals.Keys
    requires LinesMatch(report.lines, totals)
    requires report.grandTotal == LinesSum(report.lines)
    ensures report.grandTotal == HistorySum(RowsOf(rows, p))
  {
    var history := Reverse(RowsOf(rows, p));
    LinesSumIsSumMonths(history, report.lines);
    GrandTotalIsHistorySum(history, report.lines);
    HistorySumReverse(RowsOf(rows, p));
  }

  lemma {:induction false} HistorySumConcat(a: seq<Row>, b: seq<Row>)
    ensures HistorySum(a + b) == HistorySum(a) + HistorySum(b)
  {
    if b == [] {
      assert a + b == a;
    } else {
      var init := b[..|b| - 1];
      assert (a + b)[..|a + b| - 1] == a + init;
      HistorySumConcat(a, init);
    }
  }

  lemma {:induction false} HistorySumReverse(s: seq<Row>)
    ensures HistorySum(Reverse(s)) == HistorySum(s)
  {
    if s != [] {
      var init, last := s[..|s| - 1], s[|s| - 1];
      HistorySumConcat([last], Reverse(init));
      HistorySumReverse(init);
      assert [last][..0] == [];
    }
  }

  // ---------------------------------------------------------------------
  // The administrator's "user <phone>" report

  datatype HistoryReport = NoHistory(phone: Phone) | History(phone: Phone, rows: seq<Row>, total: real)

  /** `get_user_history(p)` and the loop that lists each row and sums the
      amounts: the rows newest first, and the total of all of them. */
  method UserHistoryReport(store: LedgerStore, p: Phone) returns (report: HistoryReport)
    ensures report.phone == p
    ensures report.NoHistory? <==> RowsOf(store.amounts, p) == []
    ensures report.History? ==> report.rows == Reverse(RowsOf(store.amounts, p))
                                && report.total == HistorySum(RowsOf(store.amounts, p))
  {
    var history := store.GetUserHistory(p);
    if history == [] {
      return NoHistory(p);
    }
    var total := 0.0;
    var i := 0;
    while i < |history|
      invariant 0 <= i <= |history|
      invariant total == HistorySum(history[..i])
    {
      assert history[..i + 1][..i] == history[..i];
      total := total + history[i].amount;
      i := i + 1;
    }
    assert history[..i] == history;
    HistorySumReverse(RowsOf(store.amounts, p));
    report := History(p, history, total);
  }
}
