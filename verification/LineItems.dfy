/** One employee's line item of a payroll run: figures computed in two passes, adjustments on top. */
module LineItems {
  import opened FinancialYear
  import opened PayrollCalculator
  import opened Tds
  import opened WorkingDays
  import opened Wrappers

  type Id = string

  /** What attendance, leave, configuration and the tax history say about an employee for one period. */
  datatype Facts = Facts(employeeId: Id, hasWorkState: bool, days: Days, overtimeHours: real, shiftHours: real,
    profile: TaxProfile, elapsedGross: real, alreadyDeducted: real, remainingMonths: int, ptSlabs: seq<PtSlab>)

  datatype Settings = Settings(epf: Epf, esi: Esi, overtimeEnabled: bool, overtimeMultiplier: real)

  datatype Note = Text(text: string) | ArrearsFor(period: Period)

  datatype Adjustment = Adjustment(kind: string, amount: real, note: Note)

  datatype LineItem = LineItem(employeeId: Id, days: Days, gross: real, epfEmployee: real, esiEmployee: real,
    professionalTax: real, tds: real, netPay: real, adjustments: seq<Adjustment>, payslip: Option<string>)

  datatype Exclusion = NoWorkState | NoSalaryStructure | Failed(error: CalculationError)

  function Total(adjustments: seq<Adjustment>): real {
    if adjustments == [] then 0.0 else Total(adjustments[..|adjustments| - 1]) + adjustments[|adjustments| - 1].amount
  }

  /** Gross less the deductions: the net pay before adjustments. */
  function BaseNet(item: LineItem): real {
    item.gross - item.epfEmployee - item.esiEmployee - item.professionalTax - item.tds
  }

  /** Net pay is gross less deductions plus the adjustments. */
  predicate Balanced(item: LineItem) {
    item.netPay == BaseNet(item) + Total(item.adjustments)
  }

  function BasicAmount(components: seq<Component>): real {
    if components == [] then 0.0
    else if components[0].code == BASIC_CODE then components[0].monthlyAmount
    else BasicAmount(components[1..])
  }

  /** Paid only with overtime switched on, hours worked, a shift to rate them against and days to work. */
  function OvertimeOf(components: seq<Component>, facts: Facts, settings: Settings): Option<Overtime> {
    if settings.overtimeEnabled && facts.overtimeHours > 0.0 && facts.shiftHours > 0.0 && facts.days.workingDays > 0
    then
      var hours := facts.days.workingDays as real * facts.shiftHours;
      assert hours > 0.0;
      Some(Overtime(facts.overtimeHours, BasicAmount(components) / hours, settings.overtimeMultiplier))
    else None
  }

  function InputOf(components: seq<Component>, facts: Facts, settings: Settings, month: int, tds: real): Input {
    Input(components, facts.days.workingDays, facts.days.payableDays, settings.epf, settings.esi, facts.ptSlabs, month,
      OvertimeOf(components, facts, settings), tds, false)
  }

  function ItemOf(facts: Facts, pay: Pay): LineItem {
    LineItem.LineItem(facts.employeeId, facts.days, pay.grossEarnings, pay.epfEmployee, pay.esiEmployee,
      pay.professionalTax, pay.tds, pay.netPay, [], None)
  }

  /** A first pass without tax gives the gross the tax is projected from, the second deducts that tax. */
  function ComputeLineItem(structure: Option<seq<Component>>, facts: Facts, settings: Settings,
      month: int): Result<LineItem, Exclusion>
  {
    if !facts.hasWorkState then Err(NoWorkState)
    else if structure.None? then Err(NoSalaryStructure)
    else
      var provisional := CalculatePayroll(InputOf(structure.value, facts, settings, month, 0.0));
      if provisional.Err? then Err(Failed(provisional.error))
      else
        var tds := MonthlyTds(facts.profile, provisional.value.grossEarnings, facts.elapsedGross, facts.alreadyDeducted,
          facts.remainingMonths);
        if tds == 0.0 then Ok(ItemOf(facts, provisional.value))
        else
          var result := CalculatePayroll(InputOf(structure.value, facts, settings, month, tds));
          if result.Err? then Err(Failed(result.error)) else Ok(ItemOf(facts, result.value))
  }

  /** Tax changes nothing but itself and the net pay. */
  lemma TaxOnlyMovesNetPay(input: Input, tds: real)
    ensures Compute(input.(tds := tds)) ==
      Compute(input).(tds := tds, netPay := Compute(input).netPay + input.tds - tds)
  {
  }

  /** The tax of a line item is projected from that same line item's gross, though it is computed before it. */
  lemma LineItemIsConsistent(structure: Option<seq<Component>>, facts: Facts, settings: Settings, month: int)
    requires ComputeLineItem(structure, facts, settings, month).Ok?
    ensures var item := ComputeLineItem(structure, facts, settings, month).value;
      && item.employeeId == facts.employeeId && item.adjustments == [] && item.payslip == None
      && item.tds ==
           MonthlyTds(facts.profile, item.gross, facts.elapsedGross, facts.alreadyDeducted, facts.remainingMonths)
      && item.netPay >= 0.0
      && Balanced(item)
  {
    var provisional := InputOf(structure.value, facts, settings, month, 0.0);
    var item := ComputeLineItem(structure, facts, settings, month).value;
    hide MonthlyTds;
    TaxOnlyMovesNetPay(provisional, item.tds);
    assert provisional.(tds := item.tds) == InputOf(structure.value, facts, settings, month, item.tds);
    assert Compute(provisional).netPay == Compute(provisional).grossEarnings - Compute(provisional).epfEmployee
      - Compute(provisional).esiEmployee - Compute(provisional).professionalTax;
  }

  /** With days from the working-day count, a line item is only excluded for a negative net pay. */
  lemma OnlyNegativeNetFails(structure: Option<seq<Component>>, facts: Facts, settings: Settings, month: int,
      periodStart: int, periodEnd: int, holidays: set<int>, weeklyOffs: set<int>, lopDays: int,
      employedFrom: Option<int>)
    requires lopDays >= 0
    requires facts.days == ComputePayableDays(periodStart, periodEnd, holidays, weeklyOffs, lopDays, employedFrom, None)
    ensures var r := ComputeLineItem(structure, facts, settings, month);
      r.Err? ==> r.error in {NoWorkState, NoSalaryStructure, Failed(NegativeNet)}
  {
    PayableDaysInRange(periodStart, periodEnd, holidays, weeklyOffs, lopDays, employedFrom, None);
    hide Compute;
  }
}
