/** What an employee's line item earns and deducts: proration, overtime, EPF, ESI and professional tax in figures. */
module StatutoryPay {
  import opened LineItems
  import opened PayrollCalculator
  import opened Tds
  import opened Wrappers

  /** No further from the exact amount than that. */
  predicate Near(amount: real, exact: real, within: real) {
    -within <= amount - exact <= within
  }

  function PercentOf(amount: real, rate: real): real {
    amount * rate / 100.0
  }

  /** Rounding goes to the nearest rupee, and with halves away from zero alike on both sides of it. */
  lemma RoundsToNearest(x: real)
    ensures Near(RoundRupee(x), x, 0.5) && RoundRupee(-x) == -RoundRupee(x)
    ensures x >= 0.0 ==> RoundRupee(x) - x > -0.5
  {
  }

  lemma PaiseToNearest(x: real)
    ensures Near(RoundPaise(x), x, 0.005)
  {
    RoundsToNearest(x * 100.0);
  }

  // ---- Earnings ----

  /** `part` of `whole` of the amount. */
  function ShareOf(amount: real, part: int, whole: int): real
    requires whole > 0
  {
    amount * part as real / whole as real
  }

  lemma ShareIsFactor(amount: real, part: int, whole: int)
    requires whole > 0
    ensures Prorated(amount, PayableFactor(whole, part)) == RoundPaise(ShareOf(amount, part, whole))
  {
    hide RoundPaise;
    FractionOfAmount(amount, part as real, whole as real, PayableFactor(whole, part), ShareOf(amount, part, whole));
    ProratedIs(amount, PayableFactor(whole, part), ShareOf(amount, part, whole));
  }

  lemma ProratedIs(amount: real, factor: real, product: real)
    requires amount * factor == product
    ensures Prorated(amount, factor) == RoundPaise(product)
  {
  }

  lemma FractionOfAmount(amount: real, part: real, whole: real, factor: real, share: real)
    requires whole > 0.0 && factor == part / whole && share == amount * part / whole
    ensures amount * factor == share
  {
    assert factor * whole == part && share * whole == amount * part;
    assert (amount * factor) * whole == amount * (factor * whole);
    EqualTimes(amount * factor, share, whole);
  }

  lemma EqualTimes(x: real, y: real, z: real)
    requires z > 0.0 && x * z == y * z
    ensures x == y
  {
    assert (x - y) * z == 0.0;
  }

  /** A component is paid for the payable part of the working days, to the nearest paisa. */
  lemma ComponentIsProrated(c: Component, workingDays: int, payableDays: int)
    requires workingDays > 0
    ensures var e := EarningOf(c, PayableFactor(workingDays, payableDays));
      && e.code == c.code && e.kind == c.kind && Near(e.fullMonthlyAmount, c.monthlyAmount, 0.005)
      && Near(e.proratedAmount, ShareOf(c.monthlyAmount, payableDays, workingDays), 0.005)
  {
    hide RoundPaise;
    hide Prorated;
    hide PayableFactor;
    hide ShareOf;
    PaiseToNearest(c.monthlyAmount);
    ShareIsFactor(c.monthlyAmount, payableDays, workingDays);
    PaiseToNearest(ShareOf(c.monthlyAmount, payableDays, workingDays));
  }

  /** Provisions of the employer are nobody's pay, wherever they are listed. */
  lemma {:induction false} ProvisionsAreUnpaid(before: seq<Component>, c: Component, after: seq<Component>,
      factor: real)
    requires c.kind == "PF_EMPLOYER" || c.kind == "ESI_EMPLOYER" || c.kind == "GRATUITY_PROVISION"
    ensures Earnings(before + [c] + after, factor) == Earnings(before + after, factor)
    decreases |after|
  {
    hide EarningOf;
    var all := before + [c] + after;
    if after == [] {
      assert all[..|all| - 1] == before && before + after == before;
    } else {
      assert all[..|all| - 1] == before + [c] + after[..|after| - 1];
      assert (before + after)[..|before + after| - 1] == before + after[..|after| - 1];
      ProvisionsAreUnpaid(before, c, after[..|after| - 1], factor);
    }
  }

  /** Every other component is. */
  lemma OthersArePaid(before: seq<Component>, c: Component, factor: real)
    requires c.kind != "PF_EMPLOYER" && c.kind != "ESI_EMPLOYER" && c.kind != "GRATUITY_PROVISION"
    ensures Earnings(before + [c], factor) == Earnings(before, factor) + [EarningOf(c, factor)]
  {
    hide EarningOf;
    assert (before + [c])[..|before|] == before;
  }

  /** The Basic that overtime is rated on is the first component of that code. */
  lemma {:induction false} BasicOf(components: seq<Component>, i: nat)
    requires i < |components| && components[i].code == "BASIC"
    requires forall k :: 0 <= k < i ==> components[k].code != "BASIC"
    ensures BasicAmount(components) == components[i].monthlyAmount
  {
    if i > 0 {
      BasicOf(components[1..], i - 1);
    }
  }

  lemma {:induction false} NoBasicToRate(components: seq<Component>)
    requires forall k :: 0 <= k < |components| ==> components[k].code != "BASIC"
    ensures BasicAmount(components) == 0.0
  {
    if components != [] {
      NoBasicToRate(components[1..]);
    }
  }

  /** Overtime pay is added to the gross, full and actual, and without hours there is no line for it. */
  lemma OvertimeAddsToGross(input: Input)
    ensures var with, without := Compute(input), Compute(input.(overtime := None));
      && with.grossEarnings == without.grossEarnings + OvertimePay(input.overtime)
      && with.fullGross == without.fullGross + OvertimePay(input.overtime)
      && (|with.earnings| == |without.earnings| + 1 <==> input.overtime.Some? && input.overtime.value.hours > 0.0)
      && (input.overtime.None? || input.overtime.value.hours <= 0.0 ==> with.earnings == without.earnings)
  {
    var factor := PayableFactor(input.workingDays, input.payableDays);
    assert input.overtime.None? || input.overtime.value.hours <= 0.0 ==> OvertimePay(input.overtime) == 0.0;
    SumOfOneMore(Earnings(input.components, factor),
      Earning("CUSTOM", "OVERTIME", OvertimePay(input.overtime), OvertimePay(input.overtime)));
    hide Earnings;
    hide OvertimePay;
    hide FullSum;
    hide ProratedSum;
    hide RoundPaise;
    hide EpfWages;
    hide PercentInRupees;
  }

  function Product(a: real, b: real, c: real): real {
    a * b * c
  }

  lemma AmountIsProduct(overtime: Overtime)
    ensures OvertimeAmount(overtime) == Product(overtime.hours, overtime.hourlyRate, overtime.multiplier)
  {
  }

  /**
   * Overtime is paid at so many times the hourly rate that the month's Basic makes over its working days and shift
   * hours, and only if it is switched on and worked, and there is a shift and a day to rate it against.
   */
  lemma OvertimeIsRated(components: seq<Component>, facts: Facts, settings: Settings)
    ensures OvertimeOf(components, facts, settings).Some? <==>
      && settings.overtimeEnabled && facts.overtimeHours > 0.0 && facts.shiftHours > 0.0 && facts.days.workingDays > 0
    ensures OvertimeOf(components, facts, settings).Some? ==>
      var hours := facts.days.workingDays as real * facts.shiftHours;
      && hours > 0.0
      && Near(OvertimePay(OvertimeOf(components, facts, settings)),
           Product(facts.overtimeHours, BasicAmount(components) / hours, settings.overtimeMultiplier), 0.005)
    ensures OvertimeOf(components, facts, settings).None? ==>
      OvertimePay(OvertimeOf(components, facts, settings)) == 0.0
  {
    hide RoundPaise;
    hide Product;
    var overtime := OvertimeOf(components, facts, settings);
    if overtime.Some? {
      var hours := facts.days.workingDays as real * facts.shiftHours;
      assert overtime.value.hourlyRate == BasicAmount(components) / hours;
      assert overtime.value.hours == facts.overtimeHours > 0.0;
      assert OvertimePay(overtime) == RoundPaise(OvertimeAmount(overtime.value));
      PaiseToNearest(OvertimeAmount(overtime.value));
      AmountIsProduct(overtime.value);
      HoursArePositive(facts.days.workingDays, facts.shiftHours);
    }
  }

  lemma HoursArePositive(days: int, hours: real)
    requires days > 0 && hours > 0.0
    ensures days as real * hours > 0.0
  {
  }

  // ---- Deductions ----

  lemma PercentToNearest(wages: real, rate: real)
    ensures Near(PercentInRupees(wages, rate), PercentOf(wages, rate), 0.5)
  {
    RoundsToNearest(PercentOf(wages, rate));
  }

  /** Up to the wage ceiling both shares of ESI are their own rate on the gross actually paid, to the nearest rupee. */
  lemma EsiIsOnPaidGross(input: Input)
    requires Compute(input).fullGross <= input.esi.wageCeiling
    ensures var pay := Compute(input);
      && Near(pay.esiEmployee, PercentOf(pay.grossEarnings, input.esi.employeeRate), 0.5)
      && Near(pay.esiEmployer, PercentOf(pay.grossEarnings, input.esi.employerRate), 0.5)
  {
    PercentToNearest(Compute(input).grossEarnings, input.esi.employeeRate);
    PercentToNearest(Compute(input).grossEarnings, input.esi.employerRate);
    hide PercentInRupees;
    hide Earnings;
  }

  /** Both shares of EPF are their rates on the same wages, the employer's four each to the nearest rupee. */
  lemma EpfIsOnWages(input: Input)
    ensures var pay, epf := Compute(input), input.epf;
      var wages := EpfWages(pay.earnings, epf);
      && Near(pay.epfEmployee, PercentOf(wages, epf.employeeRate), 0.5)
      && Near(pay.epfEmployer, PercentOf(wages, epf.epsRate + epf.employerRate + epf.adminRate + epf.edliRate), 2.0)
  {
    var epf := input.epf;
    var wages := EpfWages(Compute(input).earnings, epf);
    PercentToNearest(wages, epf.employeeRate);
    PercentToNearest(wages, epf.epsRate);
    PercentToNearest(wages, epf.employerRate);
    PercentToNearest(wages, epf.adminRate);
    PercentToNearest(wages, epf.edliRate);
    hide PercentInRupees;
    hide Earnings;
    hide EpfWages;
    FourShares(wages, epf.epsRate, epf.employerRate, epf.adminRate, epf.edliRate);
  }

  lemma FourShares(wages: real, a: real, b: real, c: real, d: real)
    ensures PercentOf(wages, a + b + c + d) ==
      PercentOf(wages, a) + PercentOf(wages, b) + PercentOf(wages, c) + PercentOf(wages, d)
  {
  }

  lemma {:induction false} NoBasicNoWages(earnings: seq<Earning>)
    requires forall k :: 0 <= k < |earnings| ==> earnings[k].code != "BASIC"
    ensures ProratedBasic(earnings) == 0.0
  {
    if earnings != [] {
      NoBasicNoWages(earnings[1..]);
    }
  }

  /** Over contiguous bands professional tax is the amount of the one that holds the gross actually paid. */
  lemma ProfessionalTaxIsOnPaidGross(input: Input) returns (band: nat)
    requires Contiguous(input.ptSlabs) && Compute(input).grossEarnings >= input.ptSlabs[0].grossFrom
    ensures band < |input.ptSlabs| && InBand(Compute(input).grossEarnings, input.ptSlabs[band])
    ensures Near(Compute(input).professionalTax, BandAmount(input.ptSlabs[band], input.month), 0.5)
  {
    var gross := Compute(input).grossEarnings;
    band := EveryGrossHasOneBand(gross, input.month, input.ptSlabs);
    RoundsToNearest(BandAmount(input.ptSlabs[band], input.month));
    hide RoundRupee;
    hide Earnings;
    hide InBand;
  }

  /** A gross that no band holds is charged nothing. */
  lemma {:induction false} NoBandNoTax(gross: real, month: int, slabs: seq<PtSlab>)
    requires forall k :: 0 <= k < |slabs| ==> !InBand(gross, slabs[k])
    ensures ResolveProfessionalTax(gross, month, slabs) == 0.0
  {
    if slabs != [] {
      NoBandNoTax(gross, month, slabs[1..]);
    }
  }

  /** What is not refused has days in order, and a net pay that is not negative unless that is allowed. */
  lemma AcceptedPay(input: Input)
    ensures CalculatePayroll(input).Ok? <==>
      0 <= input.payableDays <= input.workingDays && (Compute(input).netPay >= 0.0 || input.allowNegativeNet)
    ensures CalculatePayroll(input).Ok? ==> CalculatePayroll(input).value == Compute(input)
  {
    hide Compute;
  }

  /** Nobody is left out but for a missing work state, a missing structure, or a calculation that is refused. */
  lemma ItemUnlessRefused(structure: Option<seq<Component>>, facts: Facts, settings: Settings, month: int)
    ensures ComputeLineItem(structure, facts, settings, month) == Err(NoWorkState) <==> !facts.hasWorkState
    ensures facts.hasWorkState ==>
      (ComputeLineItem(structure, facts, settings, month) == Err(NoSalaryStructure) <==> structure.None?)
    ensures facts.hasWorkState && structure.Some? && ComputeLineItem(structure, facts, settings, month).Err? ==>
      exists tds :: CalculatePayroll(InputOf(structure.value, facts, settings, month, tds)).Err?
  {
    hide CalculatePayroll;
    hide MonthlyTds;
  }

  /** The settings with other rates for the employer's contributions. */
  function WithEmployerRates(settings: Settings, epsRate: real, employerRate: real, adminRate: real, edliRate: real,
      esiRate: real): Settings
  {
    settings.(
      epf := settings.epf.(epsRate := epsRate, employerRate := employerRate, adminRate := adminRate,
        edliRate := edliRate),
      esi := settings.esi.(employerRate := esiRate))
  }

  /** The employer's rates change nothing in anybody's line item. */
  lemma EmployerRatesAreNotDeducted(structure: Option<seq<Component>>, facts: Facts, settings: Settings, month: int,
      epsRate: real, employerRate: real, adminRate: real, edliRate: real, esiRate: real)
    ensures ComputeLineItem(structure, facts,
        WithEmployerRates(settings, epsRate, employerRate, adminRate, edliRate, esiRate), month) ==
      ComputeLineItem(structure, facts, settings, month)
  {
    hide MonthlyTds;
    hide Earnings;
    hide WithOvertime;
    hide FullSum;
    hide ProratedSum;
    hide RoundPaise;
    hide RoundRupee;
    hide ProratedBasic;
    hide EpfEmployer;
    hide PercentInRupees;
    hide ResolveProfessionalTax;
    hide BasicAmount;
    hide PayableFactor;
  }

  // ---- The line item ----

  /**
   * A line item's gross and deductions are those of the employee's components, days and settings: each in its own
   * place, to the rounding.
   */
  lemma LineItemFigures(components: seq<Component>, facts: Facts, settings: Settings, month: int)
    requires ComputeLineItem(Some(components), facts, settings, month).Ok?
    ensures var item := ComputeLineItem(Some(components), facts, settings, month).value;
      var pay := Compute(InputOf(components, facts, settings, month, item.tds));
      && item.days == facts.days && item.gross == pay.grossEarnings && item.netPay == pay.netPay
      && (pay.fullGross <= settings.esi.wageCeiling ==>
            Near(item.esiEmployee, PercentOf(item.gross, settings.esi.employeeRate), 0.5))
      && (pay.fullGross > settings.esi.wageCeiling ==> item.esiEmployee == 0.0)
      && Near(item.epfEmployee, PercentOf(EpfWages(pay.earnings, settings.epf), settings.epf.employeeRate), 0.5)
      && item.professionalTax == pay.professionalTax
      && Near(item.professionalTax, ResolveProfessionalTax(item.gross, month, facts.ptSlabs), 0.5)
  {
    hide Compute;
    hide ComputeLineItem;
    hide InputOf;
    hide ResolveProfessionalTax;
    hide PercentOf;
    var item := ComputeLineItem(Some(components), facts, settings, month).value;
    ItemIsOfPay(components, facts, settings, month);
    FiguresOfPay(components, facts, settings, month, item.tds);
    hide Near;
  }

  lemma FiguresOfPay(components: seq<Component>, facts: Facts, settings: Settings, month: int, tds: real)
    ensures var pay := Compute(InputOf(components, facts, settings, month, tds));
      && (pay.fullGross <= settings.esi.wageCeiling ==>
            Near(pay.esiEmployee, PercentOf(pay.grossEarnings, settings.esi.employeeRate), 0.5))
      && (pay.fullGross > settings.esi.wageCeiling ==> pay.esiEmployee == 0.0)
      && Near(pay.epfEmployee, PercentOf(EpfWages(pay.earnings, settings.epf), settings.epf.employeeRate), 0.5)
      && Near(pay.professionalTax, ResolveProfessionalTax(pay.grossEarnings, month, facts.ptSlabs), 0.5)
  {
    var input := InputOf(components, facts, settings, month, tds);
    EpfIsOnWages(input);
    if Compute(input).fullGross <= settings.esi.wageCeiling {
      EsiIsOnPaidGross(input);
    }
    RoundsToNearest(ResolveProfessionalTax(Compute(input).grossEarnings, month, facts.ptSlabs));
    hide PercentOf;
    hide Near;
    hide EpfWages;
    hide Earnings;
    hide RoundRupee;
    hide PercentInRupees;
    hide ResolveProfessionalTax;
  }

  lemma ItemIsOfPay(components: seq<Component>, facts: Facts, settings: Settings, month: int)
    requires ComputeLineItem(Some(components), facts, settings, month).Ok?
    ensures var item := ComputeLineItem(Some(components), facts, settings, month).value;
      item == ItemOf(facts, Compute(InputOf(components, facts, settings, month, item.tds)))
  {
    hide Compute;
    hide MonthlyTds;
    TaxIsAsGiven(InputOf(components, facts, settings, month, 0.0));
    var item := ComputeLineItem(Some(components), facts, settings, month).value;
    var provisional := Compute(InputOf(components, facts, settings, month, 0.0));
    TaxIsAsGiven(InputOf(components, facts, settings, month, MonthlyTds(facts.profile, provisional.grossEarnings,
      facts.elapsedGross, facts.alreadyDeducted, facts.remainingMonths)));
  }

  lemma TaxIsAsGiven(input: Input)
    ensures Compute(input).tds == input.tds
  {
  }
}
