/** One employee's pay for one period: prorated earnings, statutory deductions and net pay. */
module PayrollCalculator {
  import opened Sequences
  import opened Tds
  import opened WorkingDays
  import opened Wrappers

  const BASIC_CODE := "BASIC"
  const EMPLOYER_COST_TYPES := {"PF_EMPLOYER", "ESI_EMPLOYER", "GRATUITY_PROVISION"}

  /** A structure's component with its resolved full monthly amount. */
  datatype Component = Component(kind: string, code: string, monthlyAmount: real)

  datatype Earning = Earning(kind: string, code: string, fullMonthlyAmount: real, proratedAmount: real)

  datatype Epf = Epf(ceiling: real, allowAboveCeiling: bool, employeeRate: real, epsRate: real, employerRate: real,
    adminRate: real, edliRate: real)

  datatype Esi = Esi(wageCeiling: real, employeeRate: real, employerRate: real)

  datatype PtSlab = PtSlab(grossFrom: real, grossTo: Option<real>, monthlyAmount: real, februaryAmount: Option<real>)

  datatype Overtime = Overtime(hours: real, hourlyRate: real, multiplier: real)

  datatype Input = Input(components: seq<Component>, workingDays: int, payableDays: int, epf: Epf, esi: Esi,
    ptSlabs: seq<PtSlab>, month: int, overtime: Option<Overtime>, tds: real, allowNegativeNet: bool)

  datatype Pay = Pay(earnings: seq<Earning>, fullGross: real, grossEarnings: real, lopDeduction: real,
    epfEmployee: real, epfEmployer: real, esiEmployee: real, esiEmployer: real, professionalTax: real, tds: real,
    netPay: real)

  datatype CalculationError = MorePayableThanWorking | NegativeDays | NegativeNet

  // ---- Rounding ----

  /** Nearest paisa, halves away from zero. */
  function RoundPaise(value: real): real {
    RoundRupee(value * 100.0) / 100.0
  }

  function Paise(n: int): real {
    n as real / 100.0
  }

  ghost predicate WholePaise(value: real) {
    exists n: int :: value == Paise(n)
  }

  lemma FloorOrders(x: real, y: real)
    requires x <= y
    ensures x.Floor <= y.Floor
  {
    assert x.Floor as real <= x && y < y.Floor as real + 1.0;
  }

  lemma RoundRupeeOrders(x: real, y: real)
    requires x <= y
    ensures RoundRupee(x) <= RoundRupee(y)
  {
    if x >= 0.0 {
      FloorOrders(x + 0.5, y + 0.5);
    } else if y < 0.0 {
      FloorOrders(0.5 - y, 0.5 - x);
    } else {
      FloorOrders(0.0, 0.5 - x);
      FloorOrders(0.0, y + 0.5);
    }
  }

  lemma RoundPaiseOrders(x: real, y: real)
    requires x <= y
    ensures RoundPaise(x) <= RoundPaise(y)
  {
    RoundRupeeOrders(x * 100.0, y * 100.0);
  }

  lemma RoundRupeeOfWhole(n: int)
    ensures RoundRupee(n as real) == n as real
  {
    assert (n as real + 0.5).Floor == n;
    assert (0.5 - n as real).Floor == -n;
  }

  lemma WholePaiseStays(n: int)
    ensures RoundPaise(Paise(n)) == Paise(n)
  {
    assert Paise(n) * 100.0 == n as real;
    RoundRupeeOfWhole(n);
  }

  lemma RoundPaiseIsWhole(value: real)
    ensures WholePaise(RoundPaise(value))
  {
    var scaled := value * 100.0;
    var n := if scaled >= 0.0 then (scaled + 0.5).Floor else -((0.5 - scaled).Floor);
    assert RoundPaise(value) == Paise(n);
  }

  // ---- Earnings ----

  function PayableFactor(workingDays: int, payableDays: int): real {
    if workingDays == 0 then 0.0 else payableDays as real / workingDays as real
  }

  function Prorated(amount: real, factor: real): real {
    RoundPaise(amount * factor)
  }

  function EarningOf(c: Component, factor: real): Earning {
    Earning(c.kind, c.code, RoundPaise(c.monthlyAmount), Prorated(c.monthlyAmount, factor))
  }

  /** What the employee is paid for; provisions of the employer are not. */
  function Earnings(components: seq<Component>, factor: real): seq<Earning> {
    if components == [] then []
    else
      var before, last := Earnings(components[..|components| - 1], factor), components[|components| - 1];
      if last.kind in EMPLOYER_COST_TYPES then before else before + [EarningOf(last, factor)]
  }

  function OvertimeAmount(overtime: Overtime): real {
    overtime.hours * overtime.hourlyRate * overtime.multiplier
  }

  function OvertimePay(overtime: Option<Overtime>): real {
    if overtime.Some? && overtime.value.hours > 0.0 then RoundPaise(OvertimeAmount(overtime.value)) else 0.0
  }

  lemma PayIsWholePaise(overtime: Option<Overtime>, amount: real, factor: real)
    ensures WholePaise(OvertimePay(overtime)) && WholePaise(Prorated(amount, factor)) && WholePaise(RoundPaise(amount))
  {
    RoundPaiseIsWhole(amount * factor);
    RoundPaiseIsWhole(amount);
    hide RoundPaise;
    hide OvertimeAmount;
    if overtime.Some? && overtime.value.hours > 0.0 {
      RoundPaiseIsWhole(OvertimeAmount(overtime.value));
    } else {
      assert Paise(0) == 0.0;
    }
  }

  function WithOvertime(earnings: seq<Earning>, overtime: Option<Overtime>): seq<Earning> {
    if overtime.Some? && overtime.value.hours > 0.0
    then earnings + [Earning("CUSTOM", "OVERTIME", OvertimePay(overtime), OvertimePay(overtime))] else earnings
  }

  function FullSum(earnings: seq<Earning>): real {
    if earnings == [] then 0.0 else FullSum(earnings[..|earnings| - 1]) + earnings[|earnings| - 1].fullMonthlyAmount
  }

  function ProratedSum(earnings: seq<Earning>): real {
    if earnings == [] then 0.0 else ProratedSum(earnings[..|earnings| - 1]) + earnings[|earnings| - 1].proratedAmount
  }

  function ProratedBasic(earnings: seq<Earning>): real {
    if earnings == [] then 0.0
    else if earnings[0].code == BASIC_CODE then earnings[0].proratedAmount
    else ProratedBasic(earnings[1..])
  }

  // ---- Deductions ----

  function PercentInRupees(wages: real, rate: real): real {
    RoundRupee(wages * rate / 100.0)
  }

  function EpfWages(earnings: seq<Earning>, epf: Epf): real {
    var basic := ProratedBasic(earnings);
    if epf.allowAboveCeiling || basic <= epf.ceiling then basic else epf.ceiling
  }

  function EpfEmployer(wages: real, epf: Epf): real {
    PercentInRupees(wages, epf.epsRate) + PercentInRupees(wages, epf.employerRate)
    + PercentInRupees(wages, epf.adminRate) + PercentInRupees(wages, epf.edliRate)
  }

  predicate InBand(gross: real, slab: PtSlab) {
    gross >= slab.grossFrom && (slab.grossTo.None? || gross < slab.grossTo.value)
  }

  /** The amount of the first band that holds the gross, nothing if none does. */
  function ResolveProfessionalTax(gross: real, month: int, slabs: seq<PtSlab>): real {
    if slabs == [] then 0.0
    else if InBand(gross, slabs[0]) then
      if month == 2 && slabs[0].februaryAmount.Some? then slabs[0].februaryAmount.value else slabs[0].monthlyAmount
    else ResolveProfessionalTax(gross, month, slabs[1..])
  }

  /** Everything but the checks. */
  function Compute(input: Input): Pay {
    var factor := PayableFactor(input.workingDays, input.payableDays);
    var earnings := WithOvertime(Earnings(input.components, factor), input.overtime);
    var fullGross, gross := FullSum(earnings), ProratedSum(earnings);
    var wages := EpfWages(earnings, input.epf);
    var epfEmployee := PercentInRupees(wages, input.epf.employeeRate);
    var esiApplies := fullGross <= input.esi.wageCeiling;
    var esiEmployee := if esiApplies then PercentInRupees(gross, input.esi.employeeRate) else 0.0;
    var esiEmployer := if esiApplies then PercentInRupees(gross, input.esi.employerRate) else 0.0;
    var professionalTax := RoundRupee(ResolveProfessionalTax(gross, input.month, input.ptSlabs));
    var totalDeductions := epfEmployee + esiEmployee + professionalTax + input.tds;
    Pay(earnings, fullGross, gross, RoundPaise(fullGross - gross), epfEmployee, EpfEmployer(wages, input.epf),
      esiEmployee, esiEmployer, professionalTax, input.tds, gross - totalDeductions)
  }

  function CalculatePayroll(input: Input): Result<Pay, CalculationError> {
    if input.payableDays > input.workingDays then Err(MorePayableThanWorking)
    else if input.workingDays < 0 || input.payableDays < 0 then Err(NegativeDays)
    else
      var pay := Compute(input);
      if pay.netPay < 0.0 && !input.allowNegativeNet then Err(NegativeNet) else Ok(pay)
  }

  // ---- Properties ----

  /** What the calculator is fed by the working-day count never trips its range checks. */
  lemma RangeChecksNeverFire(input: Input, periodStart: int, periodEnd: int, holidays: set<int>, weeklyOffs: set<int>,
      lopDays: int, employedFrom: Option<int>, employedTo: Option<int>)
    requires lopDays >= 0
    requires Days(input.workingDays, input.payableDays) ==
      ComputePayableDays(periodStart, periodEnd, holidays, weeklyOffs, lopDays, employedFrom, employedTo)
    ensures CalculatePayroll(input).Err? <==> Compute(input).netPay < 0.0 && !input.allowNegativeNet
    ensures CalculatePayroll(input).Err? ==> CalculatePayroll(input) == Err(NegativeNet)
  {
    PayableDaysInRange(periodStart, periodEnd, holidays, weeklyOffs, lopDays, employedFrom, employedTo);
  }

  ghost predicate AllWholePaise(earnings: seq<Earning>) {
    forall e :: e in earnings ==> WholePaise(e.fullMonthlyAmount) && WholePaise(e.proratedAmount)
  }

  lemma {:induction false} SumsAreWholePaise(earnings: seq<Earning>) returns (full: int, prorated: int)
    requires AllWholePaise(earnings)
    ensures FullSum(earnings) == Paise(full) && ProratedSum(earnings) == Paise(prorated)
  {
    if earnings == [] {
      return 0, 0;
    }
    var f, p := SumsAreWholePaise(earnings[..|earnings| - 1]);
    var last := earnings[|earnings| - 1];
    var n: int :| last.fullMonthlyAmount == Paise(n);
    var m: int :| last.proratedAmount == Paise(m);
    return f + n, p + m;
  }

  lemma {:induction false} EarningsAreWholePaise(components: seq<Component>, factor: real)
    ensures AllWholePaise(Earnings(components, factor))
  {
    hide RoundPaise;
    hide Prorated;
    hide WholePaise;
    if components != [] {
      var last := components[|components| - 1];
      EarningsAreWholePaise(components[..|components| - 1], factor);
      PayIsWholePaise(None, last.monthlyAmount, factor);
    }
  }

  /** Gross pay and loss-of-pay deduction add up to the full monthly gross, to the paisa. */
  lemma LossOfPayIsTheRest(input: Input)
    ensures var pay := Compute(input); pay.grossEarnings + pay.lopDeduction == pay.fullGross
  {
    var earnings := Compute(input).earnings;
    ComputedEarnings(input);
    var full, prorated := SumsAreWholePaise(earnings);
    WholePaiseStays(full - prorated);
    PaiseSubtract(full, prorated);
    hide RoundPaise;
    hide Paise;
    hide WithOvertime;
  }

  lemma ComputedEarnings(input: Input)
    ensures AllWholePaise(Compute(input).earnings)
  {
    hide RoundPaise;
    hide WholePaise;
    hide OvertimePay;
    hide Earnings;
    EarningsAreWholePaise(input.components, PayableFactor(input.workingDays, input.payableDays));
    PayIsWholePaise(input.overtime, 0.0, 0.0);
  }

  lemma PaiseSubtract(a: int, b: int)
    ensures Paise(a - b) == Paise(a) - Paise(b)
  {
  }

  lemma QuotientOrders(a: real, b: real, w: real)
    requires w > 0.0 && a <= b
    ensures a / w <= b / w && w / w == 1.0 && 0.0 / w == 0.0
  {
    var q, r := a / w, b / w;
    assert q * w == a && r * w == b;
    assert (r - q) * w == b - a;
  }

  lemma FactorOrders(workingDays: int, fewer: int, more: int)
    requires 0 <= fewer <= more <= workingDays
    ensures 0.0 <= PayableFactor(workingDays, fewer) <= PayableFactor(workingDays, more) <= 1.0
    ensures workingDays > 0 ==> PayableFactor(workingDays, workingDays) == 1.0
    ensures PayableFactor(workingDays, 0) == 0.0
  {
    if workingDays > 0 {
      var w := workingDays as real;
      QuotientOrders(0.0, fewer as real, w);
      QuotientOrders(fewer as real, more as real, w);
      QuotientOrders(more as real, w, w);
    }
  }

  lemma ProratedOrders(amount: real, fewer: real, more: real)
    requires amount >= 0.0 && 0.0 <= fewer <= more <= 1.0
    ensures 0.0 <= Prorated(amount, fewer) <= Prorated(amount, more) <= RoundPaise(amount)
    ensures Prorated(amount, 0.0) == 0.0 && Prorated(amount, 1.0) == RoundPaise(amount)
  {
    assert amount * 0.0 == 0.0 && amount * 1.0 == amount;
    assert 0.0 <= amount * fewer <= amount * more <= amount;
    NothingRounded();
    hide RoundPaise;
    RoundPaiseOrders(0.0, amount * fewer);
    RoundPaiseOrders(amount * fewer, amount * more);
    RoundPaiseOrders(amount * more, amount);
  }

  ghost predicate NonNegative(components: seq<Component>) {
    forall i :: 0 <= i < |components| && components[i].kind !in EMPLOYER_COST_TYPES ==>
      components[i].monthlyAmount >= 0.0
  }

  lemma {:induction false} EarningsGrow(components: seq<Component>, fewer: real, more: real)
    requires NonNegative(components) && 0.0 <= fewer <= more <= 1.0
    ensures 0.0 <= ProratedSum(Earnings(components, fewer)) <= ProratedSum(Earnings(components, more)) <=
      FullSum(Earnings(components, more))
    ensures FullSum(Earnings(components, fewer)) == FullSum(Earnings(components, more))
    ensures fewer == 0.0 ==> ProratedSum(Earnings(components, fewer)) == 0.0
    ensures more == 1.0 ==> ProratedSum(Earnings(components, more)) == FullSum(Earnings(components, more))
  {
    hide RoundPaise;
    hide EarningOf;
    hide FullSum;
    hide ProratedSum;
    if components == [] {
      NoSum();
    } else {
      var rest, last := components[..|components| - 1], components[|components| - 1];
      EarningsGrow(rest, fewer, more);
      if last.kind !in EMPLOYER_COST_TYPES {
        OneEarningGrows(last, fewer, more);
        SumOfOneMore(Earnings(rest, fewer), EarningOf(last, fewer));
        SumOfOneMore(Earnings(rest, more), EarningOf(last, more));
      }
    }
  }

  lemma NoSum()
    ensures FullSum([]) == 0.0 == ProratedSum([])
  {
  }

  lemma OneEarningGrows(c: Component, fewer: real, more: real)
    requires c.monthlyAmount >= 0.0 && 0.0 <= fewer <= more <= 1.0
    ensures 0.0 <= EarningOf(c, fewer).proratedAmount <= EarningOf(c, more).proratedAmount <=
      EarningOf(c, more).fullMonthlyAmount
    ensures EarningOf(c, fewer).fullMonthlyAmount == EarningOf(c, more).fullMonthlyAmount
    ensures fewer == 0.0 ==> EarningOf(c, fewer).proratedAmount == 0.0
    ensures more == 1.0 ==> EarningOf(c, more).proratedAmount == EarningOf(c, more).fullMonthlyAmount
  {
    hide RoundPaise;
    hide Prorated;
    ProratedOrders(c.monthlyAmount, fewer, more);
  }

  lemma NothingRounded()
    ensures RoundPaise(0.0) == 0.0
  {
    assert Paise(0) == 0.0;
    WholePaiseStays(0);
  }

  lemma SumOfOneMore(earnings: seq<Earning>, e: Earning)
    ensures FullSum(earnings + [e]) == FullSum(earnings) + e.fullMonthlyAmount
    ensures ProratedSum(earnings + [e]) == ProratedSum(earnings) + e.proratedAmount
  {
    assert (earnings + [e])[..|earnings|] == earnings;
  }

  /**
   * With amounts that are not negative, gross pay never falls as payable days are added, is the whole gross once every
   * working day is payable, and is the overtime pay alone when none is.
   */
  lemma GrossFollowsPayableDays(input: Input, more: int)
    requires NonNegative(input.components) && 0 <= input.payableDays <= more <= input.workingDays
    ensures var other := input.(payableDays := more);
      && OvertimePay(input.overtime) <= Compute(input).grossEarnings <= Compute(other).grossEarnings <=
           Compute(other).fullGross
      && Compute(other).fullGross == Compute(input).fullGross
      && (more == input.workingDays > 0 ==> Compute(other).grossEarnings == Compute(other).fullGross)
      && (input.payableDays == 0 ==> Compute(input).grossEarnings == OvertimePay(input.overtime))
  {
    var fewerFactor, moreFactor :=
      PayableFactor(input.workingDays, input.payableDays), PayableFactor(input.workingDays, more);
    FactorOrders(input.workingDays, input.payableDays, more);
    hide PayableFactor;
    EarningsGrow(input.components, fewerFactor, moreFactor);
    hide Earnings;
    hide OvertimePay;
    if input.overtime.Some? && input.overtime.value.hours > 0.0 {
      var line := Earning("CUSTOM", "OVERTIME", OvertimePay(input.overtime), OvertimePay(input.overtime));
      SumOfOneMore(Earnings(input.components, fewerFactor), line);
      SumOfOneMore(Earnings(input.components, moreFactor), line);
    }
  }

  lemma {:induction false} FullSumIgnoresFactor(components: seq<Component>, one: real, other: real)
    ensures FullSum(Earnings(components, one)) == FullSum(Earnings(components, other))
  {
    hide RoundPaise;
    hide Prorated;
    if components != [] {
      var rest, last := components[..|components| - 1], components[|components| - 1];
      FullSumIgnoresFactor(rest, one, other);
      SumOfOneMore(Earnings(rest, one), EarningOf(last, one));
      SumOfOneMore(Earnings(rest, other), EarningOf(last, other));
    }
  }

  /** Whether ESI applies is a matter of the full gross: losing pay never brings anybody under it. */
  lemma EsiIgnoresLostPay(input: Input, payableDays: int)
    ensures Compute(input.(payableDays := payableDays)).fullGross == Compute(input).fullGross
    ensures Compute(input).fullGross > input.esi.wageCeiling ==>
      Compute(input.(payableDays := payableDays)).esiEmployee == 0.0 ==
        Compute(input.(payableDays := payableDays)).esiEmployer
  {
    var other := input.(payableDays := payableDays);
    var one, two := PayableFactor(input.workingDays, input.payableDays), PayableFactor(input.workingDays, payableDays);
    FullSumIgnoresFactor(input.components, one, two);
    if input.overtime.Some? && input.overtime.value.hours > 0.0 {
      var line := Earning("CUSTOM", "OVERTIME", OvertimePay(input.overtime), OvertimePay(input.overtime));
      SumOfOneMore(Earnings(input.components, one), line);
      SumOfOneMore(Earnings(input.components, two), line);
    }
    hide Earnings;
    hide FullSum;
    hide PayableFactor;
    hide OvertimePay;
  }

  /** The prorated Basic is that of the first paid component with its code. */
  lemma {:induction false} BasicIsFound(components: seq<Component>, factor: real, i: nat)
    requires i < |components| && components[i].code == BASIC_CODE && components[i].kind !in EMPLOYER_COST_TYPES
    requires forall k :: 0 <= k < |components| && k != i ==> components[k].code != BASIC_CODE
    ensures ProratedBasic(Earnings(components, factor)) == Prorated(components[i].monthlyAmount, factor)
  {
    hide RoundPaise;
    hide Prorated;
    var rest, last := components[..|components| - 1], components[|components| - 1];
    if i < |rest| {
      BasicIsFound(rest, factor, i);
      OthersAfterBasic(Earnings(rest, factor), EarningOf(last, factor));
    } else {
      NoBasicYet(rest, factor);
      BasicLast(Earnings(rest, factor), EarningOf(last, factor));
    }
  }

  lemma {:induction false} NoBasicYet(components: seq<Component>, factor: real)
    requires forall k :: 0 <= k < |components| ==> components[k].code != BASIC_CODE
    ensures forall e :: e in Earnings(components, factor) ==> e.code != BASIC_CODE
  {
    hide RoundPaise;
    hide Prorated;
    if components != [] {
      NoBasicYet(components[..|components| - 1], factor);
    }
  }

  lemma {:induction false} OthersAfterBasic(earnings: seq<Earning>, e: Earning)
    requires e.code != BASIC_CODE
    ensures ProratedBasic(earnings + [e]) == ProratedBasic(earnings)
  {
    if earnings == [] {
      assert [e][1..] == [];
    } else {
      TailOfConcat(earnings, [e]);
      OthersAfterBasic(earnings[1..], e);
    }
  }

  lemma {:induction false} BasicLast(earnings: seq<Earning>, e: Earning)
    requires e.code == BASIC_CODE && forall x :: x in earnings ==> x.code != BASIC_CODE
    ensures ProratedBasic(earnings + [e]) == e.proratedAmount
  {
    if earnings != [] {
      TailOfConcat(earnings, [e]);
      BasicLast(earnings[1..], e);
    }
  }

  /**
   * EPF is charged on the prorated Basic, up to the ceiling unless it is lifted, and on nothing else: neither the other
   * components nor overtime change it.
   */
  lemma EpfIsOnBasicOnly(input: Input, i: nat)
    requires i < |input.components| && input.components[i].code == BASIC_CODE
    requires input.components[i].kind !in EMPLOYER_COST_TYPES
    requires forall k :: 0 <= k < |input.components| && k != i ==> input.components[k].code != BASIC_CODE
    ensures var basic :=
      Prorated(input.components[i].monthlyAmount, PayableFactor(input.workingDays, input.payableDays));
      var wages := if input.epf.allowAboveCeiling || basic <= input.epf.ceiling then basic else input.epf.ceiling;
      Compute(input).epfEmployee == PercentInRupees(wages, input.epf.employeeRate)
  {
    var factor := PayableFactor(input.workingDays, input.payableDays);
    BasicIsFound(input.components, factor, i);
    var line := Earning("CUSTOM", "OVERTIME", OvertimePay(input.overtime), OvertimePay(input.overtime));
    OthersAfterBasic(Earnings(input.components, factor), line);
    hide Earnings;
    hide Prorated;
    hide PercentInRupees;
    hide OvertimePay;
    hide ProratedBasic;
    hide PayableFactor;
  }

  /** Bands that follow one another without a gap, the last one open. */
  ghost predicate Contiguous(slabs: seq<PtSlab>) {
    && slabs != [] && slabs[|slabs| - 1].grossTo.None?
    && forall i :: 0 <= i < |slabs| - 1 ==> FollowedBy(slabs[i], slabs[i + 1])
  }

  predicate FollowedBy(slab: PtSlab, next: PtSlab) {
    slab.grossFrom < next.grossFrom && slab.grossTo == Some(next.grossFrom)
  }

  function BandAmount(slab: PtSlab, month: int): real {
    if month == 2 && slab.februaryAmount.Some? then slab.februaryAmount.value else slab.monthlyAmount
  }

  /** Over contiguous bands every gross from the lowest one on is in exactly one, and is charged that one's amount. */
  lemma {:induction false} EveryGrossHasOneBand(gross: real, month: int, slabs: seq<PtSlab>) returns (band: nat)
    requires Contiguous(slabs) && gross >= slabs[0].grossFrom
    ensures band < |slabs| && InBand(gross, slabs[band])
    ensures forall k :: 0 <= k < |slabs| && k != band ==> !InBand(gross, slabs[k])
    ensures ResolveProfessionalTax(gross, month, slabs) == BandAmount(slabs[band], month)
  {
    if InBand(gross, slabs[0]) {
      band := 0;
      forall k | 0 < k < |slabs|
        ensures !InBand(gross, slabs[k])
      {
        BandsAscend(slabs, k);
      }
    } else {
      var rest := slabs[1..];
      forall i | 0 <= i < |rest| - 1
        ensures FollowedBy(rest[i], rest[i + 1])
      {
        assert FollowedBy(slabs[i + 1], slabs[i + 2]);
      }
      var inRest := EveryGrossHasOneBand(gross, month, rest);
      band := inRest + 1;
    }
  }

  lemma {:induction false} BandsAscend(slabs: seq<PtSlab>, k: nat)
    requires Contiguous(slabs) && 0 < k < |slabs|
    ensures slabs[0].grossTo.Some? && slabs[0].grossTo.value <= slabs[k].grossFrom
  {
    assert FollowedBy(slabs[k - 1], slabs[k]);
    if k > 1 {
      BandsAscend(slabs, k - 1);
    }
  }
}
