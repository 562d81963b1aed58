/** The line items of a year's payroll runs as the history that the year's tax deductions are computed from. */
module TaxYear {
  import opened FinancialYear
  import opened IncomeTax
  import opened LineItems
  import opened PayrollRuns
  import opened Sequences
  import opened Tds

  function RowsOf(run: Run, items: seq<Item>): seq<Tds.LineItem> {
    if items == [] then []
    else
      var last := items[|items| - 1];
      RowsOf(run, items[..|items| - 1])
      + [Tds.LineItem.LineItem(last.employeeId, run.period, run.isReprocess, run.status, last.gross, last.tds)]
  }

  /** All stored line items, with what the query for the history looks at. */
  function Rows(runs: seq<Run>): seq<Tds.LineItem> {
    if runs == [] then [] else Rows(runs[..|runs| - 1]) + RowsOf(runs[|runs| - 1], runs[|runs| - 1].items)
  }

  function Plus(a: Totals, b: Totals): Totals {
    Totals(a.gross + b.gross, a.tds + b.tds)
  }

  lemma {:induction false} HistoryOfBoth(a: seq<Tds.LineItem>, b: seq<Tds.LineItem>, id: Id, period: Period)
    ensures History(a + b, id, period) == Plus(History(a, id, period), History(b, id, period))
  {
    if b == [] {
      assert a + b == a;
    } else {
      FrontOfConcat(a, b);
      HistoryOfBoth(a, b[..|b| - 1], id, period);
    }
  }

  predicate CountsRun(run: Run, period: Period) {
    run.period in Elapsed(period) && !run.isReprocess && (run.status.Processed? || run.status.Disbursed?)
  }

  /** What one run adds to an employee's history. */
  function FromRun(run: Run, items: seq<Item>, id: Id, period: Period): Totals {
    if CountsRun(run, period) && id in EmployeesOf(items)
    then Totals(items[ItemIndex(items, id)].gross, items[ItemIndex(items, id)].tds) else Totals(0.0, 0.0)
  }

  lemma FromRunOfOneMore(run: Run, items: seq<Item>, last: Item, id: Id, period: Period)
    requires forall i :: 0 <= i < |items| ==> items[i].employeeId != last.employeeId
    ensures FromRun(run, items + [last], id, period) ==
      if CountsRun(run, period) && last.employeeId == id then Totals(last.gross, last.tds)
      else FromRun(run, items, id, period)
  {
    hide CountsRun;
    assert (items + [last])[..|items|] == items;
    assert EmployeesOf(items + [last]) == EmployeesOf(items) + {last.employeeId};
  }

  lemma {:induction false} HistoryOfRun(run: Run, items: seq<Item>, id: Id, period: Period)
    requires forall i, j :: 0 <= i < j < |items| ==> items[i].employeeId != items[j].employeeId
    ensures History(RowsOf(run, items), id, period) == FromRun(run, items, id, period)
  {
    hide Elapsed;
    hide ItemIndex;
    if items == [] {
      assert EmployeesOf(items) == {};
    } else {
      var rest, last := items[..|items| - 1], items[|items| - 1];
      HistoryOfRun(run, rest, id, period);
      assert items == rest + [last];
      FromRunOfOneMore(run, rest, last, id, period);
      var rows := RowsOf(run, items);
      assert rows[..|rows| - 1] == RowsOf(run, rest);
      if last.employeeId == id {
        assert id !in EmployeesOf(rest);
      }
    }
  }

  // ---- Twelve runs of a year ----

  /** The employee's item of a run that counts as the run of the year's `k`-th month. */
  ghost predicate PaidInMonth(runs: seq<Run>, y: Year, k: nat, at: nat) {
    && k < |y.grosses| && at < |runs|
    && !runs[at].isReprocess && (runs[at].status.Processed? || runs[at].status.Disbursed?)
    && runs[at].period == NthPeriod(y.startYear, k)
    && y.employeeId in EmployeesOf(runs[at].items)
    && ItemAt(runs, y, at).gross == y.grosses[k]
  }

  function ItemAt(runs: seq<Run>, y: Year, at: nat): Item
    requires at < |runs| && y.employeeId in EmployeesOf(runs[at].items)
  {
    runs[at].items[ItemIndex(runs[at].items, y.employeeId)]
  }

  /** The year's months are paid by the runs at those places. */
  ghost predicate YearPaid(runs: seq<Run>, y: Year, at: seq<nat>) {
    |at| == |y.grosses| == 12 && forall k :: 0 <= k < 12 ==> PaidInMonth(runs, y, k, at[k])
  }

  /** The tax of each month's item is computed from the history that the stored line items make up. */
  ghost predicate TaxedFromHistory(runs: seq<Run>, y: Year, at: seq<nat>)
    requires YearPaid(runs, y, at)
  {
    forall k :: 0 <= k < 12 ==> TaxedInMonth(runs, y, k, at[k])
  }

  ghost predicate TaxedInMonth(runs: seq<Run>, y: Year, k: nat, at: nat)
    requires PaidInMonth(runs, y, k, at)
  {
    var period, item := NthPeriod(y.startYear, k), ItemAt(runs, y, at);
    var history := History(Rows(runs), y.employeeId, period);
    item.tds == MonthlyTds(y.profile, item.gross, history.gross, history.tds, MonthsRemaining(period))
  }

  /** Gross and tax of the first `k` months' items among the first `n` runs. */
  ghost function MonthsAmong(runs: seq<Run>, y: Year, at: seq<nat>, k: nat, n: nat): Totals
    requires YearPaid(runs, y, at) && k <= 12
  {
    if k == 0 then Totals(0.0, 0.0)
    else
      assert PaidInMonth(runs, y, k - 1, at[k - 1]);
      var item := ItemAt(runs, y, at[k - 1]);
      Plus(MonthsAmong(runs, y, at, k - 1, n), if at[k - 1] < n then Totals(item.gross, item.tds) else Totals(0.0, 0.0))
  }

  lemma RunsDiffer(runs: seq<Run>, y: Year, at: seq<nat>, j: nat, k: nat)
    requires YearPaid(runs, y, at) && j < k < 12
    ensures at[j] != at[k]
  {
    NthPeriodIsMonth(y.startYear, j);
    NthPeriodIsMonth(y.startYear, k);
    assert PaidInMonth(runs, y, j, at[j]) && PaidInMonth(runs, y, k, at[k]);
  }

  lemma {:induction false} OneMoreRun(runs: seq<Run>, y: Year, at: seq<nat>, k: nat, n: nat)
    requires YearPaid(runs, y, at) && k <= 12 && n < |runs|
    ensures MonthsAmong(runs, y, at, k, n + 1) == Plus(MonthsAmong(runs, y, at, k, n),
      if exists j :: 0 <= j < k && at[j] == n
      then assert y.employeeId in EmployeesOf(runs[n].items) by { YearRun(runs, y, at, k, n); }
           Totals(ItemAt(runs, y, n).gross, ItemAt(runs, y, n).tds)
      else Totals(0.0, 0.0))
  {
    if k > 0 {
      OneMoreRun(runs, y, at, k - 1, n);
      assert PaidInMonth(runs, y, k - 1, at[k - 1]);
      forall j: nat | j < k - 1
        ensures at[j] != at[k - 1]
      {
        RunsDiffer(runs, y, at, j, k - 1);
      }
    }
  }

  lemma YearRun(runs: seq<Run>, y: Year, at: seq<nat>, k: nat, n: nat)
    requires YearPaid(runs, y, at) && k <= 12 && exists j :: 0 <= j < k && at[j] == n
    ensures n < |runs| && y.employeeId in EmployeesOf(runs[n].items)
  {
    var j :| 0 <= j < k && at[j] == n;
    assert PaidInMonth(runs, y, j, at[j]);
  }

  /** A run counts towards the history of month `k` exactly if it is the run of an earlier month. */
  lemma CountedRuns(office: Office, y: Year, at: seq<nat>, k: nat, n: nat)
    requires Sound(office) && YearPaid(office.runs, y, at) && k < 12 && n < |office.runs|
    ensures CountsRun(office.runs[n], NthPeriod(y.startYear, k)) <==> exists j :: 0 <= j < k && at[j] == n
  {
    var period := NthPeriod(y.startYear, k);
    NthPeriodIsMonth(y.startYear, k);
    PlaceInYear(period);
    if CountsRun(office.runs[n], period) {
      var j :| 0 <= j < k && Elapsed(period)[j] == office.runs[n].period;
      assert PaidInMonth(office.runs, y, j, at[j]);
      assert office.runs[n].period == office.runs[at[j]].period;
    }
    if j :| 0 <= j < k && at[j] == n {
      assert PaidInMonth(office.runs, y, j, at[j]);
      EarlierMonthElapsed(y.startYear, j, k);
    }
  }

  lemma OneMoreInHistory(office: Office, y: Year, k: nat, n: nat)
    requires Sound(office) && n < |office.runs|
    ensures var period := NthPeriod(y.startYear, k);
      History(Rows(office.runs[..n + 1]), y.employeeId, period) ==
      Plus(History(Rows(office.runs[..n]), y.employeeId, period),
        FromRun(office.runs[n], office.runs[n].items, y.employeeId, period))
  {
    hide History;
    hide FromRun;
    hide RowsOf;
    hide NthPeriod;
    var run, period := office.runs[n], NthPeriod(y.startYear, k);
    assert office.runs[..n + 1][..n] == office.runs[..n];
    HistoryOfBoth(Rows(office.runs[..n]), RowsOf(run, run.items), y.employeeId, period);
    assert SoundRun(run);
    HistoryOfRun(run, run.items, y.employeeId, period);
  }

  lemma {:induction false} HistoryIsMonths(office: Office, y: Year, at: seq<nat>, k: nat, n: nat)
    requires Sound(office) && YearPaid(office.runs, y, at) && k < 12 && n <= |office.runs|
    ensures History(Rows(office.runs[..n]), y.employeeId, NthPeriod(y.startYear, k)) ==
      MonthsAmong(office.runs, y, at, k, n)
    decreases n
  {
    if n == 0 {
      NothingYet(office.runs, y, at, k);
    } else {
      hide MonthsAmong;
      hide History;
      hide Sound;
      hide FromRun;
      hide NthPeriod;
      hide ItemIndex;
      hide PaidInMonth;
      HistoryIsMonths(office, y, at, k, n - 1);
      OneMoreInHistory(office, y, k, n - 1);
      OneMoreRun(office.runs, y, at, k, n - 1);
      FromYearRun(office, y, at, k, n - 1);
    }
  }

  /** What run `n` adds to the history of month `k`. */
  lemma FromYearRun(office: Office, y: Year, at: seq<nat>, k: nat, n: nat)
    requires Sound(office) && YearPaid(office.runs, y, at) && k < 12 && n < |office.runs|
    ensures FromRun(office.runs[n], office.runs[n].items, y.employeeId, NthPeriod(y.startYear, k)) ==
      if exists j :: 0 <= j < k && at[j] == n
      then assert y.employeeId in EmployeesOf(office.runs[n].items) by { YearRun(office.runs, y, at, k, n); }
           Totals(ItemAt(office.runs, y, n).gross, ItemAt(office.runs, y, n).tds)
      else Totals(0.0, 0.0)
  {
    CountedRuns(office, y, at, k, n);
    hide CountsRun;
    hide Sound;
    hide NthPeriod;
    hide PaidInMonth;
    if exists j :: 0 <= j < k && at[j] == n {
      YearRun(office.runs, y, at, k, n);
    }
  }

  lemma {:induction false} NothingYet(runs: seq<Run>, y: Year, at: seq<nat>, k: nat)
    requires YearPaid(runs, y, at) && k <= 12
    ensures MonthsAmong(runs, y, at, k, 0) == Totals(0.0, 0.0)
  {
    if k > 0 {
      NothingYet(runs, y, at, k - 1);
    }
  }

  lemma MonthIsDeducted(office: Office, y: Year, at: seq<nat>, k: nat)
    requires Sound(office) && YearPaid(office.runs, y, at) && TaxedFromHistory(office.runs, y, at) && k < 12
    ensures PaidInMonth(office.runs, y, k, at[k])
    ensures var sums := MonthsAmong(office.runs, y, at, k, |office.runs|);
      ItemAt(office.runs, y, at[k]).tds == MonthlyTds(y.profile, y.grosses[k], sums.gross, sums.tds, 12 - k)
  {
    hide *;
    HistoryIsMonths(office, y, at, k, |office.runs|);
    WholeSequence(office.runs);
    TaxedFromMonths(office.runs, y, at, k);
  }

  lemma TaxedFromMonths(runs: seq<Run>, y: Year, at: seq<nat>, k: nat)
    requires YearPaid(runs, y, at) && TaxedFromHistory(runs, y, at) && k < 12
    ensures PaidInMonth(runs, y, k, at[k])
    ensures var history := History(Rows(runs), y.employeeId, NthPeriod(y.startYear, k));
      ItemAt(runs, y, at[k]).tds == MonthlyTds(y.profile, y.grosses[k], history.gross, history.tds, 12 - k)
  {
    hide MonthlyTds;
    hide History;
    assert PaidInMonth(runs, y, k, at[k]) && TaxedInMonth(runs, y, k, at[k]);
    NthPeriodIsMonth(y.startYear, k);
    PlaceInYear(NthPeriod(y.startYear, k));
  }

  lemma {:induction false} DeductedOneMore(y: Year, k: nat)
    requires 0 < k <= |y.grosses| == 12
    ensures SumGross(y.grosses[..k]) == SumGross(y.grosses[..k - 1]) + y.grosses[k - 1]
    ensures Deducted(y, k) == Deducted(y, k - 1)
      + MonthlyTds(y.profile, y.grosses[k - 1], SumGross(y.grosses[..k - 1]), Deducted(y, k - 1), 13 - k)
  {
    hide MonthlyTds;
    assert y.grosses[..k][..k - 1] == y.grosses[..k - 1];
  }

  /** What the year's runs pay and deduct is what the year of twelve monthly deductions comes to. */
  lemma {:induction false} RunsDeductYear(office: Office, y: Year, at: seq<nat>, k: nat)
    requires Sound(office) && YearPaid(office.runs, y, at) && TaxedFromHistory(office.runs, y, at) && k <= 12
    ensures MonthsAmong(office.runs, y, at, k, |office.runs|) == Totals(SumGross(y.grosses[..k]), Deducted(y, k))
  {
    hide MonthlyTds;
    hide Sound;
    hide TaxedFromHistory;
    hide SumGross;
    hide Deducted;
    if k > 0 {
      RunsDeductYear(office, y, at, k - 1);
      MonthIsDeducted(office, y, at, k - 1);
      DeductedOneMore(y, k);
    } else {
      NothingDeducted(y);
    }
  }

  lemma NothingDeducted(y: Year)
    requires |y.grosses| == 12
    ensures SumGross(y.grosses[..0]) == 0.0 && Deducted(y, 0) == 0.0
  {
  }

  /**
   * Twelve processed runs that each compute an employee's tax from the stored history deduct over the year the tax on
   * what they paid, to half a rupee, unless more was deducted by February already.
   */
  lemma YearOfRunsIsTaxed(office: Office, y: Year, at: seq<nat>)
    requires Sound(office) && YearPaid(office.runs, y, at) && TaxedFromHistory(office.runs, y, at)
    ensures var deducted := MonthsAmong(office.runs, y, at, 12, |office.runs|).tds;
      var target := Max(ActualTax(y), MonthsAmong(office.runs, y, at, 11, |office.runs|).tds);
      target - 0.5 <= deducted <= target + 0.5
  {
    RunsDeductYear(office, y, at, 11);
    RunsDeductYear(office, y, at, 12);
    WholeYearTds(y);
  }
}
