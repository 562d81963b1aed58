/**
 * Tax deducted at source: the annual projection smoothed over the months left in the financial
 * year, fed by the line items that earlier months left behind, and what a whole year of it adds up to.
 */
module Tds {
  import opened FinancialYear
  import opened IncomeTax

  datatype Regime = Old | New

  /** Nearest whole rupee, halves away from zero. */
  function RoundRupee(value: real): real {
    if value >= 0.0 then (value + 0.5).Floor as real else -((0.5 - value).Floor as real)
  }

  /** What does not change over the months of a year for one employee. */
  datatype TaxProfile = TaxProfile(regime: Regime, exemptions: real, slabs: seq<Slab>, config: RegimeConfig)

  function ProjectedGross(monthGross: real, elapsedGross: real, remainingMonths: int): real {
    elapsedGross + monthGross * remainingMonths as real
  }

  /** Annual tax if every remaining month, this one included, pays `monthGross`. */
  function Projection(profile: TaxProfile, monthGross: real, elapsedGross: real, remainingMonths: int): real {
    AnnualTax(ProjectedGross(monthGross, elapsedGross, remainingMonths),
      if profile.regime.Old? then profile.exemptions else 0.0,
      profile.slabs, profile.config, profile.regime.New?)
  }

  function MonthlyTds(profile: TaxProfile, monthGross: real, elapsedGross: real, alreadyDeducted: real,
      remainingMonths: int): real
  {
    if remainingMonths <= 0 then 0.0
    else
      var remainingTax := Projection(profile, monthGross, elapsedGross, remainingMonths) - alreadyDeducted;
      if remainingTax <= 0.0 then 0.0 else RoundRupee(remainingTax / remainingMonths as real)
  }

  // ---- The history a month is computed from ----

  datatype RunStatus = Draft | Review | Approved | Processed | Disbursed

  datatype LineItem = LineItem(
    employeeId: string, period: Period, isReprocess: bool, status: RunStatus, gross: real, tds: real)

  datatype Totals = Totals(gross: real, tds: real)

  predicate Counts(item: LineItem, employeeIds: set<string>, period: Period) {
    && item.employeeId in employeeIds && item.period in Elapsed(period)
    && !item.isReprocess && (item.status.Processed? || item.status.Disbursed?)
  }

  /** Gross paid and tax deducted in the elapsed months of the year of `period`. */
  function History(items: seq<LineItem>, employeeId: string, period: Period): Totals {
    if items == [] then Totals(0.0, 0.0)
    else
      var t := History(items[..|items| - 1], employeeId, period);
      var last := items[|items| - 1];
      if Counts(last, {employeeId}, period) then Totals(t.gross + last.gross, t.tds + last.tds) else t
  }

  function TotalsOf(m: map<string, Totals>, employeeId: string): Totals {
    if employeeId in m then m[employeeId] else Totals(0.0, 0.0)
  }

  /** One pass over all counted line items of all employees. */
  method BuildHistory(items: seq<LineItem>, employeeIds: set<string>, period: Period) returns (m: map<string, Totals>)
    ensures forall id :: id in employeeIds ==> TotalsOf(m, id) == History(items, id, period)
  {
    m := map[];
    for i := 0 to |items|
      invariant forall id :: id in employeeIds ==> TotalsOf(m, id) == History(items[..i], id, period)
    {
      var row := items[i];
      assert items[..i + 1][..i] == items[..i];
      if Counts(row, employeeIds, period) {
        var prev := TotalsOf(m, row.employeeId);
        m := m[row.employeeId := Totals(prev.gross + row.gross, prev.tds + row.tds)];
      }
    }
    assert items[..|items|] == items;
  }

  // ---- A whole year ----

  /** One employee's monthly gross amounts of one financial year, April first. */
  datatype Year = Year(employeeId: string, startYear: int, profile: TaxProfile, grosses: seq<real>)

  /** Line items that were there before and do not belong to this employee's year. */
  ghost predicate Unrelated(items: seq<LineItem>, y: Year) {
    forall i :: 0 <= i < |items| ==>
      items[i].employeeId == y.employeeId && !items[i].isReprocess ==>
      forall k :: 0 <= k < 12 ==> items[i].period != NthPeriod(y.startYear, k)
  }

  function SumGross(grosses: seq<real>): real {
    if grosses == [] then 0.0 else SumGross(grosses[..|grosses| - 1]) + grosses[|grosses| - 1]
  }

  /** The line items after `k` months, each processed before the next month's run is drafted. */
  function ItemsAfter(before: seq<LineItem>, y: Year, k: nat): seq<LineItem>
    requires k <= |y.grosses|
  {
    if k == 0 then before
    else
      var items := ItemsAfter(before, y, k - 1);
      items + [ItemOfMonth(items, y, k - 1)]
  }

  function ItemOfMonth(items: seq<LineItem>, y: Year, k: nat): LineItem
    requires k < |y.grosses|
  {
    LineItem(y.employeeId, NthPeriod(y.startYear, k), false, Processed, y.grosses[k], TdsOfMonth(items, y, k))
  }

  /** The deduction of month `k`, from whatever line items are stored by then. */
  function TdsOfMonth(items: seq<LineItem>, y: Year, k: nat): real
    requires k < |y.grosses|
  {
    var period := NthPeriod(y.startYear, k);
    var history := History(items, y.employeeId, period);
    MonthlyTds(y.profile, y.grosses[k], history.gross, history.tds, MonthsRemaining(period))
  }

  /** Tax deducted in the first `k` months. */
  function Deducted(y: Year, k: nat): real
    requires k <= |y.grosses| <= 12
  {
    if k == 0 then 0.0
    else Deducted(y, k - 1)
         + MonthlyTds(y.profile, y.grosses[k - 1], SumGross(y.grosses[..k - 1]), Deducted(y, k - 1), 13 - k)
  }

  /** The annual tax as month `k`, counted from 0, projects it. */
  function ProjectionInMonth(y: Year, k: nat): real
    requires k < |y.grosses| <= 12
  {
    Projection(y.profile, y.grosses[k], SumGross(y.grosses[..k]), 12 - k)
  }

  lemma {:induction false} UnrelatedHistory(before: seq<LineItem>, y: Year, k: nat)
    requires Unrelated(before, y) && k < 12
    ensures History(before, y.employeeId, NthPeriod(y.startYear, k)) == Totals(0.0, 0.0)
  {
    if before != [] {
      UnrelatedHistory(before[..|before| - 1], y, k);
      var last, p := before[|before| - 1], NthPeriod(y.startYear, k);
      NthPeriodIsMonth(y.startYear, k);
      PlaceInYear(p);
      if last.period in Elapsed(p) {
        var j :| 0 <= j < k && Elapsed(p)[j] == last.period;
        assert last.period == NthPeriod(y.startYear, j);
      }
    }
  }

  lemma HistoryOfOneMore(items: seq<LineItem>, item: LineItem, employeeId: string, period: Period)
    ensures var t := History(items, employeeId, period);
            History(items + [item], employeeId, period)
            == if Counts(item, {employeeId}, period) then Totals(t.gross + item.gross, t.tds + item.tds) else t
  {
    assert (items + [item])[..|items|] == items;
  }

  /** Gross and tax of the first `k` months, as the sums a later month reads them. */
  function SumsAfter(y: Year, k: nat): Totals
    requires k <= |y.grosses| <= 12
  {
    Totals(SumGross(y.grosses[..k]), Deducted(y, k))
  }

  lemma FeedbackOfSums(items: seq<LineItem>, y: Year, k: nat)
    requires k < |y.grosses| == 12
    requires History(items, y.employeeId, NthPeriod(y.startYear, k)) == SumsAfter(y, k)
    ensures Deducted(y, k + 1) == Deducted(y, k) + TdsOfMonth(items, y, k)
    ensures SumsAfter(y, k + 1) ==
      Totals(SumsAfter(y, k).gross + y.grosses[k], SumsAfter(y, k).tds + TdsOfMonth(items, y, k))
  {
    NthPeriodIsMonth(y.startYear, k);
    PlaceInYear(NthPeriod(y.startYear, k));
    assert y.grosses[..k + 1][..k] == y.grosses[..k];
  }

  lemma EarlierMonthElapsed(startYear: int, k: nat, month: nat)
    requires k < month < 12
    ensures NthPeriod(startYear, k) in Elapsed(NthPeriod(startYear, month))
  {
    NthPeriodIsMonth(startYear, k);
    NthPeriodIsMonth(startYear, month);
    ElapsedIsEarlierInYear(NthPeriod(startYear, month), NthPeriod(startYear, k));
  }

  lemma {:induction false} HistoryIsSums(before: seq<LineItem>, y: Year, k: nat, month: nat)
    requires Unrelated(before, y) && k <= month < |y.grosses| == 12
    ensures History(ItemsAfter(before, y, k), y.employeeId, NthPeriod(y.startYear, month)) == SumsAfter(y, k)
    decreases k
  {
    if k == 0 {
      UnrelatedHistory(before, y, month);
    } else {
      HistoryIsSums(before, y, k - 1, month);
      HistoryIsSums(before, y, k - 1, k - 1);
      OneMoreMonth(ItemsAfter(before, y, k - 1), y, k - 1, month);
    }
  }

  lemma OneMoreMonth(items: seq<LineItem>, y: Year, k: nat, month: nat)
    requires k < month < |y.grosses| == 12
    requires History(items, y.employeeId, NthPeriod(y.startYear, k)) == SumsAfter(y, k)
    requires History(items, y.employeeId, NthPeriod(y.startYear, month)) == SumsAfter(y, k)
    ensures History(items + [ItemOfMonth(items, y, k)], y.employeeId, NthPeriod(y.startYear, month)) ==
      SumsAfter(y, k + 1)
  {
    FeedbackOfSums(items, y, k);
    EarlierMonthElapsed(y.startYear, k, month);
    HistoryOfOneMore(items, ItemOfMonth(items, y, k), y.employeeId, NthPeriod(y.startYear, month));
  }

  /** Each month's deduction is computed from the months before it and nothing else. */
  lemma MonthlyFeedback(before: seq<LineItem>, y: Year, k: nat)
    requires Unrelated(before, y) && k < |y.grosses| == 12
    ensures Deducted(y, k + 1) == Deducted(y, k) + TdsOfMonth(ItemsAfter(before, y, k), y, k)
  {
    HistoryIsSums(before, y, k, k);
    FeedbackOfSums(ItemsAfter(before, y, k), y, k);
  }

  lemma RoundingIsClose(x: real)
    requires x >= 0.0
    ensures RoundRupee(x) >= 0.0 && x - 0.5 < RoundRupee(x) <= x + 0.5
    ensures x < 0.5 ==> RoundRupee(x) == 0.0
  {
  }

  /** Before the last month, a deduction never exceeds what is still owed. */
  lemma InstalmentFits(owed: real, months: int)
    requires owed > 0.0 && months >= 2
    ensures 0.0 <= RoundRupee(owed / months as real) <= owed
  {
    var x := owed / months as real;
    assert x * months as real == owed && x > 0.0;
    assert owed >= 2.0 * x;
    RoundingIsClose(x);
  }

  lemma DeductedStep(y: Year, k: nat)
    requires k < |y.grosses| == 12
    ensures Deducted(y, k) <= Deducted(y, k + 1)
    ensures k < 11 ==> Deducted(y, k + 1) <= Max(Deducted(y, k), ProjectionInMonth(y, k))
  {
    var owed := ProjectionInMonth(y, k) - Deducted(y, k);
    if owed > 0.0 {
      RoundingIsClose(owed / (12 - k) as real);
      if k < 11 {
        InstalmentFits(owed, 12 - k);
      }
    }
  }

  /** Until February no more is deducted than some month up to then projected for the whole year. */
  lemma {:induction false} NeverAheadOfProjections(y: Year, k: nat) returns (month: nat)
    requires k <= 11 && |y.grosses| == 12
    ensures month <= 11
    ensures Deducted(y, k) == 0.0 || (month < k && Deducted(y, k) <= ProjectionInMonth(y, month))
    ensures Deducted(y, k) >= 0.0
  {
    month := 0;
    if k > 0 {
      month := NeverAheadOfProjections(y, k - 1);
      DeductedStep(y, k - 1);
      if Deducted(y, k) > Deducted(y, k - 1) {
        month := k - 1;
      }
    }
  }

  /** The annual tax on what was actually paid. */
  function ActualTax(y: Year): real {
    Projection(y.profile, 0.0, SumGross(y.grosses), 0)
  }

  lemma ActualTaxNonNegative(y: Year)
    requires ValidRegime(y.profile.slabs, y.profile.config)
    ensures ActualTax(y) >= 0.0
  {
    var gross := ProjectedGross(0.0, SumGross(y.grosses), 0);
    AnnualTaxNeverFalls(gross, gross, if y.profile.regime.Old? then y.profile.exemptions else 0.0,
      y.profile.slabs, y.profile.config, y.profile.regime.New?);
  }

  /** March projects the year as it was. */
  lemma MarchProjectsTheYear(y: Year)
    requires |y.grosses| == 12
    ensures ProjectionInMonth(y, 11) == ActualTax(y)
  {
    assert SumGross(y.grosses) == SumGross(y.grosses[..11]) + y.grosses[11];
    assert ProjectedGross(y.grosses[11], SumGross(y.grosses[..11]), 1) == ProjectedGross(0.0, SumGross(y.grosses), 0);
  }

  /** The year's total: the actual tax to half a rupee, unless more was deducted by February already. */
  lemma WholeYearTds(y: Year)
    requires |y.grosses| == 12
    ensures Deducted(y, 11) >= ActualTax(y) ==> Deducted(y, 12) == Deducted(y, 11)
    ensures Deducted(y, 11) < ActualTax(y) ==> ActualTax(y) - 0.5 < Deducted(y, 12) <= ActualTax(y) + 0.5
    ensures var target := Max(ActualTax(y), Deducted(y, 11)); target - 0.5 <= Deducted(y, 12) <= target + 0.5
  {
    MarchProjectsTheYear(y);
    var owed := ActualTax(y) - Deducted(y, 11);
    if owed > 0.0 {
      RoundingIsClose(owed / 1.0);
    }
  }

  lemma {:induction false} ConstantSum(grosses: seq<real>, g: real)
    requires forall i :: 0 <= i < |grosses| ==> grosses[i] == g
    ensures SumGross(grosses) == g * |grosses| as real
  {
    if grosses != [] {
      ConstantSum(grosses[..|grosses| - 1], g);
    }
  }

  /** With the same gross every month, every month projects the same annual tax. */
  lemma ConstantProjection(y: Year, g: real, k: nat)
    requires k < |y.grosses| == 12 && forall i :: 0 <= i < 12 ==> y.grosses[i] == g
    ensures ProjectionInMonth(y, k) == ActualTax(y)
  {
    ConstantSum(y.grosses[..k], g);
    ConstantSum(y.grosses, g);
    assert SumGross(y.grosses[..k]) == g * k as real && SumGross(y.grosses) == g * 12 as real;
    SameMonths(g, k);
  }

  lemma SameMonths(g: real, k: nat)
    requires k <= 12
    ensures ProjectedGross(g, g * k as real, 12 - k) == ProjectedGross(0.0, g * 12 as real, 0)
  {
    var months := k as real;
    assert (12 - k) as real == 12.0 - months;
    assert g * months + g * (12.0 - months) == g * 12.0;
  }

  /** With the same gross every month, the year's deductions add up to the annual tax, to half a rupee. */
  lemma ConstantGrossYear(y: Year, g: real)
    requires |y.grosses| == 12 && forall i :: 0 <= i < 12 ==> y.grosses[i] == g
    requires ValidRegime(y.profile.slabs, y.profile.config)
    ensures ActualTax(y) - 0.5 <= Deducted(y, 12) <= ActualTax(y) + 0.5
  {
    ActualTaxNonNegative(y);
    var month := NeverAheadOfProjections(y, 11);
    ConstantProjection(y, g, month);
    WholeYearTds(y);
  }
}
