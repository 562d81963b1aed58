/**
 * Two courses of events from empty tables: a run approved on figures that its first approver did not see, and arrears
 * that are folded into a run and in nobody's pay.
 */
module PayrollExample {
  import opened FinancialYear
  import opened FoldedArrears
  import opened IncomeTax
  import opened LineItems
  import opened PayrollCalculator
  import opened PayrollRuns
  import opened Tds
  import opened WorkingDays
  import opened Wrappers

  const EMPTY := Office(map[], [], [])

  /** A structure of nothing but so much Basic, in whole rupees. */
  function Basic(rupees: nat): Structure {
    [Component("BASIC", BASIC_CODE, rupees as real)]
  }

  /** No contributions, and no tax on anything. */
  const EPF := Epf(0.0, true, 0.0, 0.0, 0.0, 0.0, 0.0)
  const ESI := Esi(0.0, 0.0, 0.0)
  const SETTINGS := Settings(EPF, ESI, false, 1.0)
  const NO_TAX := TaxProfile(New, 0.0, [Slab(0.0, None, 0.0)], RegimeConfig(0.0, 0.0, 0.0, 0.0))

  /** `elapsedGross` is what earlier periods of the financial year have paid. */
  function FactsFor(payableDays: int, elapsedGross: real, period: Period): Facts {
    Facts("e", true, Days(20, payableDays), 0.0, 0.0, NO_TAX, elapsedGross, 0.0, MonthsRemaining(period), [])
  }

  function ItemFor(rupees: nat, payableDays: int): Item {
    Item.LineItem("e", Days(20, payableDays), Paid(rupees, payableDays), 0.0, 0.0, 0.0, 0.0,
      Paid(rupees, payableDays), [], None)
  }

  lemma WholeRupees(rupees: nat)
    ensures RoundPaise(rupees as real) == rupees as real && RoundPaise(0.0) == 0.0
    ensures Prorated(rupees as real, 1.0) == rupees as real && Prorated(rupees as real, 0.0) == 0.0
  {
    assert Paise(100 * rupees) == rupees as real && Paise(0) == 0.0;
    WholePaiseStays(100 * rupees);
    WholePaiseStays(0);
    assert rupees as real * 1.0 == rupees as real && rupees as real * 0.0 == 0.0;
  }

  lemma NothingOfIt(wages: real)
    ensures PercentInRupees(wages, 0.0) == 0.0
  {
    assert wages * 0.0 / 100.0 == 0.0;
    RoundRupeeOfWhole(0);
  }

  function Paid(rupees: nat, payableDays: int): real {
    if payableDays == 0 then 0.0 else rupees as real
  }

  lemma EarningsOfBasic(rupees: nat, payableDays: int)
    requires payableDays == 0 || payableDays == 20
    ensures Earnings(Basic(rupees), PayableFactor(20, payableDays)) ==
      [Earning("BASIC", BASIC_CODE, rupees as real, Paid(rupees, payableDays))]
  {
    var c, factor := Basic(rupees)[0], PayableFactor(20, payableDays);
    assert factor == if payableDays == 0 then 0.0 else 1.0;
    WholeRupees(rupees);
    hide RoundPaise;
    hide Prorated;
    assert c.kind !in EMPLOYER_COST_TYPES;
    assert Basic(rupees)[..0] == [];
    assert [] + [EarningOf(c, factor)] == [EarningOf(c, factor)];
  }

  lemma SumsOfOne(e: Earning)
    requires e.code == BASIC_CODE
    ensures FullSum([e]) == e.fullMonthlyAmount && ProratedSum([e]) == e.proratedAmount
    ensures ProratedBasic([e]) == e.proratedAmount
  {
    assert [e][..0] == [];
  }

  /** With all or none of twenty days payable, and nothing deducted, Basic is paid in full or not at all. */
  lemma PayOfBasic(rupees: nat, payableDays: int, input: Input)
    requires payableDays == 0 || payableDays == 20
    requires input.components == Basic(rupees) && input.workingDays == 20 && input.payableDays == payableDays
    requires input.epf == EPF && input.esi == ESI && input.ptSlabs == [] && input.overtime == None && input.tds == 0.0
    ensures var pay, amount := Compute(input), Paid(rupees, payableDays);
      && pay.grossEarnings == amount && pay.netPay == amount && pay.tds == 0.0
      && pay.epfEmployee == 0.0 && pay.esiEmployee == 0.0 && pay.professionalTax == 0.0
  {
    EarningsOfBasic(rupees, payableDays);
    SumsOfOne(Earning("BASIC", BASIC_CODE, rupees as real, Paid(rupees, payableDays)));
    NothingOfIt(Paid(rupees, payableDays));
    RoundRupeeOfWhole(0);
    hide RoundPaise;
    hide RoundRupee;
    hide PercentInRupees;
    hide Earnings;
    hide PayableFactor;
    hide FullSum;
    hide ProratedSum;
    hide ProratedBasic;
    hide EpfEmployer;
  }

  lemma NoTaxIsDeducted(gross: real, elapsedGross: real, remainingMonths: int)
    ensures MonthlyTds(NO_TAX, gross, elapsedGross, 0.0, remainingMonths) == 0.0
  {
    var slabs := NO_TAX.slabs;
    var income := TaxableIncome(ProjectedGross(gross, elapsedGross, remainingMonths), 0.0, NO_TAX.config);
    assert slabs[..0] == [];
    assert SlabTax(income, slabs) == Charge(Portion(income, slabs[0]), 0.0) == 0.0;
    assert SlabTax(0.0, slabs) == Charge(Portion(0.0, slabs[0]), 0.0) == 0.0;
    assert Charge(TaxBeforeCess(income, slabs, NO_TAX.config, true), 0.0) == 0.0;
  }

  lemma ItemOfBasic(rupees: nat, payableDays: int, elapsedGross: real, period: Period)
    requires payableDays == 0 || payableDays == 20
    ensures ComputeLineItem(Some(Basic(rupees)), FactsFor(payableDays, elapsedGross, period), SETTINGS, period.month) ==
      Ok(ItemFor(rupees, payableDays))
  {
    var input := InputOf(Basic(rupees), FactsFor(payableDays, elapsedGross, period), SETTINGS, period.month, 0.0);
    hide Compute;
    hide MonthlyTds;
    hide Basic;
    PayOfBasic(rupees, payableDays, input);
    hide MonthsRemaining;
    NoTaxIsDeducted(Compute(input).grossEarnings, elapsedGross, MonthsRemaining(period));
    hide Paid;
  }

  lemma {:induction false} StepsInTwoParts(office: Office, first: seq<Event>, second: seq<Event>)
    ensures Steps(office, first + second) == Steps(Steps(office, first), second)
    decreases |first|
  {
    hide Step;
    if first == [] {
      assert first + second == second;
    } else {
      assert (first + second)[1..] == first[1..] + second;
      StepsInTwoParts(Step(office, first[0]), first[1..], second);
    }
  }

  lemma OneStep(office: Office, event: Event)
    ensures Steps(office, [event]) == Step(office, event)
  {
    hide Step;
    assert [event][1..] == [];
  }

  // ---- A run under review with one approval ----

  const JANUARY := Period(2026, 1)
  const FEBRUARY := Period(2026, 2)

  const HIRED := Office(map["e" := Basic(3000)], [], [])

  function JanuaryRun(status: RunStatus, approvals: set<Id>, items: seq<Item>): Office {
    Office(map["e" := Basic(3000)], [Run(JANUARY, false, status, approvals, items)], [])
  }

  function DraftOf(period: Period, elapsedGross: real): Event {
    CreateDraft(DraftRequest(period, false, false, 2), [FactsFor(20, elapsedGross, period)], SETTINGS)
  }

  lemma DraftedItem(structures: map<Id, Structure>, rupees: nat, arrears: seq<Arrears>, elapsedGross: real,
      period: Period)
    requires "e" in structures && structures["e"] == Basic(rupees)
    ensures DraftItems(structures, arrears, [FactsFor(20, elapsedGross, period)], SETTINGS, period.month) ==
      [WithArrears(ItemFor(rupees, 20), arrears)]
  {
    ItemOfBasic(rupees, 20, elapsedGross, period);
    hide ComputeLineItem;
    hide WithArrears;
    var staff := [FactsFor(20, elapsedGross, period)];
    assert staff[..0] == [];
    assert [] + [WithArrears(ItemFor(rupees, 20), arrears)] == [WithArrears(ItemFor(rupees, 20), arrears)];
  }

  lemma NothingUnpaid(rupees: nat)
    ensures WithArrears(ItemFor(rupees, 20), []) == ItemFor(rupees, 20)
  {
    assert Total([]) == 0.0;
  }

  /** An accepted draft of January or February of the one employee. */
  lemma DraftStep(office: Office, rupees: nat, period: Period, elapsedGross: real)
    requires "e" in office.structures && office.structures["e"] == Basic(rupees) && !PeriodTaken(office.runs, period)
    ensures var item := WithArrears(ItemFor(rupees, 20), office.arrears);
      Step(office, DraftOf(period, elapsedGross)) ==
        office.(runs := office.runs + [Run(period, false, Draft, {}, [item])],
                arrears := Fold(office.arrears, EmployeesOf([item]), |office.runs|))
  {
    hide ComputeLineItem;
    hide DraftItems;
    hide WithArrears;
    hide Fold;
    hide EmployeesOf;
    hide FactsFor;
    hide Basic;
    DraftedItem(office.structures, rupees, office.arrears, elapsedGross, period);
  }

  lemma JanuaryStep()
    ensures Step(HIRED, DraftOf(JANUARY, 0.0)) == JanuaryRun(Draft, {}, [ItemFor(3000, 20)])
  {
    hide Step;
    hide Basic;
    hide FactsFor;
    hide ItemFor;
    hide DraftOf;
    hide WithArrears;
    hide EmployeesOf;
    DraftStep(HIRED, 3000, JANUARY, 0.0);
    NothingUnpaid(3000);
    assert Fold([], EmployeesOf([ItemFor(3000, 20)]), 0) == [];
    assert HIRED.runs + [Run(JANUARY, false, Draft, {}, [ItemFor(3000, 20)])] ==
      [Run(JANUARY, false, Draft, {}, [ItemFor(3000, 20)])];
  }

  lemma HireStep(rupees: nat)
    ensures Step(EMPTY, CreateStructure("e", Basic(rupees))) == Office(map["e" := Basic(rupees)], [], [])
  {
    hide Basic;
  }

  function ToFirstApproval(): seq<Event> {
    [CreateStructure("e", Basic(3000)), DraftOf(JANUARY, 0.0)] + [Submit(0)] + [Approve(0, "first", 2)]
  }

  lemma SubmittedAndApproved(items: seq<Item>)
    ensures Step(JanuaryRun(Draft, {}, items), Submit(0)) == JanuaryRun(Review, {}, items)
    ensures Step(JanuaryRun(Review, {}, items), Approve(0, "first", 2)) == JanuaryRun(Review, {"first"}, items)
  {
    assert {} + {"first"} == {"first"} && |{"first"}| == 1;
  }

  lemma FirstApprovalIsReached()
    ensures Steps(EMPTY, ToFirstApproval()) == JanuaryRun(Review, {"first"}, [ItemFor(3000, 20)])
  {
    hide Step;
    hide Basic;
    hide FactsFor;
    hide ItemFor;
    hide DraftOf;
    hide Steps;
    var hire, items := CreateStructure("e", Basic(3000)), [ItemFor(3000, 20)];
    JanuaryStep();
    HireStep(3000);
    SubmittedAndApproved(items);
    var begin := [hire, DraftOf(JANUARY, 0.0)];
    assert [hire] + [DraftOf(JANUARY, 0.0)] == begin;
    StepsInTwoParts(EMPTY, [hire], [DraftOf(JANUARY, 0.0)]);
    StepsInTwoParts(EMPTY, begin, [Submit(0)]);
    StepsInTwoParts(EMPTY, begin + [Submit(0)], [Approve(0, "first", 2)]);
    OneStep(EMPTY, hire);
    OneStep(HIRED, DraftOf(JANUARY, 0.0));
    OneStep(JanuaryRun(Draft, {}, items), Submit(0));
    OneStep(JanuaryRun(Review, {}, items), Approve(0, "first", 2));
  }

  const NO_PAY_AFTER_ALL := Recalculate(0, map["e" := FactsFor(0, 0.0, JANUARY)], SETTINGS)

  /**
   * The first approver sees 3000 rupees for a full month; the run is recalculated to nothing payable, and the second
   * approver completes the approval of that.
   */
  lemma FirstApprovalMayPredateFigures()
    ensures Steps(EMPTY, ToFirstApproval()) == JanuaryRun(Review, {"first"}, [ItemFor(3000, 20)])
    ensures Steps(EMPTY, ToFirstApproval() + [NO_PAY_AFTER_ALL, Approve(0, "second", 2)]) ==
      JanuaryRun(Approved, {"first", "second"}, [ItemFor(3000, 0)])
    ensures ItemFor(3000, 20).netPay == 3000.0 && ItemFor(3000, 0).netPay == 0.0
  {
    FirstApprovalIsReached();
    ItemOfBasic(3000, 0, 0.0, JANUARY);
    assert Total([]) == 0.0;
    RecalculationStep(ItemFor(3000, 20), FactsFor(0, 0.0, JANUARY), ItemFor(3000, 0));
    ApprovedASecondTime([ItemFor(3000, 0)]);
    hide Step;
    hide ToFirstApproval;
    hide Basic;
    hide FactsFor;
    hide ComputeLineItem;
    var reviewed, recalculated :=
      JanuaryRun(Review, {"first"}, [ItemFor(3000, 20)]), JanuaryRun(Review, {"first"}, [ItemFor(3000, 0)]);
    StepsInTwoParts(EMPTY, ToFirstApproval(), [NO_PAY_AFTER_ALL, Approve(0, "second", 2)]);
    StepsInTwoParts(reviewed, [NO_PAY_AFTER_ALL], [Approve(0, "second", 2)]);
    OneStep(reviewed, NO_PAY_AFTER_ALL);
    OneStep(recalculated, Approve(0, "second", 2));
    assert [NO_PAY_AFTER_ALL] + [Approve(0, "second", 2)] == [NO_PAY_AFTER_ALL, Approve(0, "second", 2)];
  }

  lemma RecalculatedItem(structures: map<Id, Structure>, item: Item, facts: Facts, settings: Settings, month: int)
    requires ComputeLineItem(StructureOf(structures, item.employeeId), facts, settings, month).Ok?
    ensures var computed := ComputeLineItem(StructureOf(structures, item.employeeId), facts, settings, month).value;
      Recalculated(structures, [item], map[item.employeeId := facts], settings, month) ==
      Ok([Recomputed(item, computed)])
  {
    hide ComputeLineItem;
    var computed := ComputeLineItem(StructureOf(structures, item.employeeId), facts, settings, month).value;
    assert [item][..0] == [] && [] + [Recomputed(item, computed)] == [Recomputed(item, computed)];
  }

  lemma RecalculationStep(item: Item, facts: Facts, computed: Item)
    requires item.employeeId == "e" && Recomputed(item, computed) == computed
    requires ComputeLineItem(Some(Basic(3000)), facts, SETTINGS, 1) == Ok(computed)
    ensures Step(JanuaryRun(Review, {"first"}, [item]), Recalculate(0, map["e" := facts], SETTINGS)) ==
      JanuaryRun(Review, {"first"}, [computed])
  {
    RecalculatedItem(map["e" := Basic(3000)], item, facts, SETTINGS, 1);
    hide ComputeLineItem;
    hide Recalculated;
    hide Basic;
  }

  lemma ApprovedASecondTime(items: seq<Item>)
    ensures Step(JanuaryRun(Review, {"first"}, items), Approve(0, "second", 2)) ==
      JanuaryRun(Approved, {"first", "second"}, items)
  {
    assert {"first"} + {"second"} == {"first", "second"} && |{"first", "second"}| == 2;
  }

  // ---- Arrears in nobody's pay ----

  const TERMS := Terms(EPF, ESI, [])

  const RAISE := Revise("e", Basic(4000), JANUARY, TERMS)

  function Owing(status: ArrearsStatus): Arrears {
    Arrears("e", JANUARY, 0, 1000.0, status)
  }

  const JANUARY_PAID := Run(JANUARY, false, Processed, {"first", "second"}, [ItemFor(3000, 20)])

  function RaisedOffice(): Office {
    Office(map["e" := Basic(4000)], [JANUARY_PAID], [Owing(Unpaid)])
  }

  function FebruaryItem(): Item {
    ItemFor(4000, 20).(adjustments := [Adjustment("ARREARS", 1000.0, ArrearsFor(JANUARY))], netPay := 5000.0)
  }

  function FebruaryOffice(item: Item): Office {
    Office(map["e" := Basic(4000)], [JANUARY_PAID, Run(FEBRUARY, false, Draft, {}, [item])], [Owing(Folded(1))])
  }

  function ToJanuaryPaid(): seq<Event> {
    ToFirstApproval() + [Approve(0, "second", 2)] + [Process(0, map[])]
  }

  lemma JanuaryIsProcessed(items: seq<Item>)
    ensures Step(JanuaryRun(Approved, {"first", "second"}, items), Process(0, map[])) ==
      JanuaryRun(Processed, {"first", "second"}, items)
  {
    hide Basic;
    assert WithPayslips(items, map[]) == items;
  }

  lemma JanuaryIsPaid()
    ensures Steps(EMPTY, ToJanuaryPaid()) == Office(map["e" := Basic(3000)], [JANUARY_PAID], [])
  {
    hide Step;
    hide Steps;
    hide Basic;
    hide ItemFor;
    hide ToFirstApproval;
    FirstApprovalIsReached();
    var items := [ItemFor(3000, 20)];
    ApprovedASecondTime(items);
    JanuaryIsProcessed(items);
    StepsInTwoParts(EMPTY, ToFirstApproval(), [Approve(0, "second", 2)]);
    StepsInTwoParts(EMPTY, ToFirstApproval() + [Approve(0, "second", 2)], [Process(0, map[])]);
    OneStep(JanuaryRun(Review, {"first"}, items), Approve(0, "second", 2));
    OneStep(JanuaryRun(Approved, {"first", "second"}, items), Process(0, map[]));
  }

  lemma NetOfBasic(rupees: nat)
    ensures NetUnder(Basic(rupees), Days(20, 20), TERMS, 1) == rupees as real
  {
    PayOfBasic(rupees, 20, RevisionInput(Basic(rupees), Days(20, 20), TERMS, 1));
    hide Compute;
  }

  lemma JanuaryRow()
    ensures "e" in EmployeesOf(JANUARY_PAID.items)
    ensures RowFor(JANUARY_PAID, 0, "e", Basic(3000), Basic(4000), TERMS) == Owing(Unpaid)
  {
    NetOfBasic(3000);
    NetOfBasic(4000);
    hide NetUnder;
    hide Basic;
    var items := [ItemFor(3000, 20)];
    assert items[0] in items && items[0].employeeId == "e";
    assert ItemIndex(items, "e") == 0;
  }

  lemma RaiseIsOwing()
    ensures Step(Office(map["e" := Basic(3000)], [JANUARY_PAID], []), RAISE) == RaisedOffice()
  {
    JanuaryRow();
    hide RowFor;
    hide EmployeesOf;
    hide Basic;
    assert Affected(JANUARY_PAID, "e", JANUARY);
    var rows := ArrearsOf([JANUARY_PAID], 0, "e", Basic(3000), Basic(4000), JANUARY, TERMS);
    assert rows == [] && rows + [Owing(Unpaid)] == [Owing(Unpaid)] && [] + [Owing(Unpaid)] == [Owing(Unpaid)];
    assert ArrearsOf([JANUARY_PAID], 1, "e", Basic(3000), Basic(4000), JANUARY, TERMS) == [Owing(Unpaid)];
    hide ArrearsOf;
  }

  lemma OneUnpaid(row: Arrears)
    requires row.status == Unpaid
    ensures var adjustments := UnpaidOf([row], row.employeeId);
      adjustments == [Adjustment("ARREARS", row.amount, ArrearsFor(row.period))] && Total(adjustments) == row.amount
  {
    var adjustment := Adjustment("ARREARS", row.amount, ArrearsFor(row.period));
    assert [row][..0] == [] && UnpaidOf([], row.employeeId) == [];
    assert UnpaidOf([row], row.employeeId) == [] + [adjustment] == [adjustment];
    assert [adjustment][..0] == [] && Total([]) == 0.0;
  }

  /** A single unpaid row becomes the drafted item's only adjustment, and is folded. */
  lemma DraftStepWithArrears(office: Office, rupees: nat, period: Period, elapsedGross: real, row: Arrears)
    requires "e" in office.structures && office.structures["e"] == Basic(rupees) && !PeriodTaken(office.runs, period)
    requires office.arrears == [row] && row.status == Unpaid && row.employeeId == "e"
    ensures var item := ItemFor(rupees, 20).(netPay := ItemFor(rupees, 20).netPay + row.amount,
        adjustments := [Adjustment("ARREARS", row.amount, ArrearsFor(row.period))]);
      Step(office, DraftOf(period, elapsedGross)) ==
        office.(runs := office.runs + [Run(period, false, Draft, {}, [item])],
                arrears := [row.(status := Folded(|office.runs|))])
  {
    hide Step;
    hide WithArrears;
    hide Basic;
    hide DraftOf;
    hide EmployeesOf;
    hide Fold;
    hide PeriodTaken;
    DraftStep(office, rupees, period, elapsedGross);
    WithOneUnpaid(ItemFor(rupees, 20), row);
    hide ItemFor;
    OneFolded(WithArrears(ItemFor(rupees, 20), [row]), row, |office.runs|);
  }

  lemma WithOneUnpaid(item: Item, row: Arrears)
    requires row.status == Unpaid && row.employeeId == item.employeeId == "e"
    ensures WithArrears(item, [row]).employeeId == "e"
    ensures WithArrears(item, [row]) == item.(netPay := item.netPay + row.amount,
      adjustments := [Adjustment("ARREARS", row.amount, ArrearsFor(row.period))])
  {
    OneUnpaid(row);
    hide UnpaidOf;
    hide Total;
  }

  lemma OneFolded(item: Item, row: Arrears, run: nat)
    requires row.status == Unpaid && row.employeeId == item.employeeId
    ensures Fold([row], EmployeesOf([item]), run) == [row.(status := Folded(run))]
  {
    assert item in [item];
  }

  function ToFebruaryDraft(): seq<Event> {
    ToJanuaryPaid() + [RAISE] + [DraftOf(FEBRUARY, 3000.0)]
  }

  /**
   * A thousand rupees of arrears are folded into February and stand there; the adjustments are then set without them,
   * and whatever happens afterwards they stay folded into February.
   */
  lemma ArrearsCanBeDropped(events: seq<Event>)
    ensures Steps(EMPTY, ToFebruaryDraft()) == FebruaryOffice(FebruaryItem())
    ensures "e" in EmployeesOf([FebruaryItem()]) && Stand(FebruaryOffice(FebruaryItem()), 1, "e")
    ensures var after := Steps(EMPTY, ToFebruaryDraft() + [Adjust(1, "e", [])]);
      && after == FebruaryOffice(ItemFor(4000, 20))
      && "e" in EmployeesOf([ItemFor(4000, 20)]) && !Stand(after, 1, "e")
      && |Steps(after, events).arrears| >= 1 && Steps(after, events).arrears[0] == Owing(Folded(1))
  {
    hide Step;
    hide Steps;
    hide Basic;
    hide DraftOf;
    hide ToJanuaryPaid;
    hide EmployeesOf;
    JanuaryIsPaid();
    RaiseIsOwing();
    assert !PeriodTaken([JANUARY_PAID], FEBRUARY);
    DraftStepWithArrears(RaisedOffice(), 4000, FEBRUARY, 3000.0, Owing(Unpaid));
    StepsInTwoParts(EMPTY, ToJanuaryPaid(), [RAISE]);
    StepsInTwoParts(EMPTY, ToJanuaryPaid() + [RAISE], [DraftOf(FEBRUARY, 3000.0)]);
    OneStep(Office(map["e" := Basic(3000)], [JANUARY_PAID], []), RAISE);
    OneStep(RaisedOffice(), DraftOf(FEBRUARY, 3000.0));
    AdjustedAway();
    StepsInTwoParts(EMPTY, ToFebruaryDraft(), [Adjust(1, "e", [])]);
    OneStep(FebruaryOffice(FebruaryItem()), Adjust(1, "e", []));
    EventsAdvance(FebruaryOffice(ItemFor(4000, 20)), events);
  }

  lemma AdjustedAway()
    ensures "e" in EmployeesOf([FebruaryItem()]) && Stand(FebruaryOffice(FebruaryItem()), 1, "e")
    ensures Step(FebruaryOffice(FebruaryItem()), Adjust(1, "e", [])) == FebruaryOffice(ItemFor(4000, 20))
    ensures "e" in EmployeesOf([ItemFor(4000, 20)]) && !Stand(FebruaryOffice(ItemFor(4000, 20)), 1, "e")
  {
    hide Basic;
    var before, after := [FebruaryItem()], [ItemFor(4000, 20)];
    assert before[0] in before && after[0] in after;
    assert ItemIndex(before, "e") == 0 && ItemIndex(after, "e") == 0;
    assert Total([]) == 0.0;
    assert Adjusted(FebruaryItem(), []) == ItemFor(4000, 20);
    assert before[0 := ItemFor(4000, 20)] == after;
    var rows := [Owing(Folded(1))];
    var folded := [Adjustment("ARREARS", 1000.0, ArrearsFor(JANUARY))];
    assert rows[..0] == [] && [] + folded == folded;
    assert FoldedFor(rows, "e", 1) == folded;
    assert multiset(folded)[folded[0]] == 1 && multiset(ItemFor(4000, 20).adjustments)[folded[0]] == 0;
  }
}
