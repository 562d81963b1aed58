/**
 * Progressive income tax: slab validation, slab tax, the section 87A rebate of the Income-tax Act,
 * 1961, and its marginal relief. Amounts are exact rationals.
 */
module IncomeTax {
  import opened Sequences
  import opened Wrappers

  datatype Slab = Slab(incomeFrom: real, incomeTo: Option<real>, ratePercent: real)

  datatype SlabError =
    MustStartAtZero | LastMustBeOpenEnded | OnlyLastMayBeOpenEnded | MustEndAfterStart | MustBeContiguous

  // ---- Slab validation ----

  function Insert(slab: Slab, sorted: seq<Slab>): seq<Slab> {
    if sorted == [] || slab.incomeFrom < sorted[0].incomeFrom then [slab] + sorted
    else [sorted[0]] + Insert(slab, sorted[1..])
  }

  /** A copy of the slabs in ascending order of `incomeFrom`, equal ones in their given order. */
  function Sorted(slabs: seq<Slab>): seq<Slab> {
    if slabs == [] then [] else Insert(slabs[|slabs| - 1], Sorted(slabs[..|slabs| - 1]))
  }

  predicate Ascending(slabs: seq<Slab>) {
    forall i, j :: 0 <= i < j < |slabs| ==> slabs[i].incomeFrom <= slabs[j].incomeFrom
  }

  predicate MeetsNext(slab: Slab, next: Slab) {
    slab.incomeFrom < next.incomeFrom && slab.incomeTo == Some(next.incomeFrom)
  }

  /** Each slab ends, after it starts, where the next one starts; the last one never ends. */
  ghost predicate Contiguous(slabs: seq<Slab>) {
    && slabs != []
    && slabs[|slabs| - 1].incomeTo.None?
    && forall i :: 0 <= i < |slabs| - 1 ==> MeetsNext(slabs[i], slabs[i + 1])
  }

  ghost predicate WellFormed(slabs: seq<Slab>) {
    Contiguous(slabs) && slabs[0].incomeFrom == 0.0
  }

  lemma {:induction false} InsertSorts(slab: Slab, sorted: seq<Slab>)
    requires Ascending(sorted)
    ensures multiset(Insert(slab, sorted)) == multiset(sorted) + multiset{slab}
    ensures Ascending(Insert(slab, sorted))
    ensures forall s :: s in Insert(slab, sorted) ==> s == slab || s in sorted
  {
    if sorted != [] && slab.incomeFrom >= sorted[0].incomeFrom {
      var first, rest := sorted[0], sorted[1..];
      InsertSorts(slab, rest);
      HeadAndTail(sorted);
      assert multiset(sorted) == multiset{first} + multiset(rest);
      forall s | s in Insert(slab, rest)
        ensures first.incomeFrom <= s.incomeFrom
      {
        if s in rest {
          var k :| 0 <= k < |rest| && rest[k] == s;
          assert sorted[k + 1] == s;
        }
      }
    }
  }

  lemma {:induction false} SortedSorts(slabs: seq<Slab>)
    ensures multiset(Sorted(slabs)) == multiset(slabs) && Ascending(Sorted(slabs))
  {
    if slabs != [] {
      var front, last := slabs[..|slabs| - 1], slabs[|slabs| - 1];
      SortedSorts(front);
      InsertSorts(last, Sorted(front));
      assert slabs == front + [last];
    }
  }

  lemma SameElements(a: seq<Slab>, b: seq<Slab>, s: Slab)
    requires multiset(a) == multiset(b)
    ensures s in a <==> s in b
  {
    assert s in a <==> s in multiset(a);
    assert s in b <==> s in multiset(b);
  }

  lemma RestOfMultiset(a: seq<Slab>)
    requires a != []
    ensures multiset(a[1..]) == multiset(a) - multiset{a[0]}
  {
    HeadAndTail(a);
    assert multiset(a) == multiset{a[0]} + multiset(a[1..]);
  }

  lemma SameHead(a: seq<Slab>, b: seq<Slab>)
    requires b != [] && multiset(a) == multiset(b) && Ascending(a)
    requires forall i, j :: 0 <= i < j < |b| ==> b[i].incomeFrom < b[j].incomeFrom
    ensures a != [] && a[0] == b[0]
  {
    SameElements(a, b, b[0]);
    var k :| 0 <= k < |a| && a[k] == b[0];
    SameElements(a, b, a[0]);
    var j :| 0 <= j < |b| && b[j] == a[0];
  }

  /** A strictly ascending listing is the only ascending one of its slabs. */
  lemma {:induction false} AscendingIsUnique(a: seq<Slab>, b: seq<Slab>)
    requires multiset(a) == multiset(b) && Ascending(a)
    requires forall i, j :: 0 <= i < j < |b| ==> b[i].incomeFrom < b[j].incomeFrom
    ensures a == b
    decreases |b|
  {
    if b == [] {
      assert forall s :: s in a ==> s in multiset(a);
    } else {
      SameHead(a, b);
      HeadAndTail(a);
      HeadAndTail(b);
      RestOfMultiset(a);
      RestOfMultiset(b);
      AscendingIsUnique(a[1..], b[1..]);
    }
  }

  lemma {:induction false} ContiguousAscends(slabs: seq<Slab>, i: nat, j: nat)
    requires Contiguous(slabs) && i < j < |slabs|
    ensures slabs[i].incomeFrom < slabs[j].incomeFrom
    decreases j
  {
    if i < j - 1 {
      ContiguousAscends(slabs, i, j - 1);
    }
  }

  /** Accepted slabs are listed gap-free from zero to infinity, and any slabs that can be are accepted. */
  method ValidateTaxSlabs(slabs: seq<Slab>) returns (r: Result<seq<Slab>, SlabError>)
    requires slabs != []
    ensures r.Ok? ==> multiset(r.value) == multiset(slabs) && WellFormed(r.value)
    ensures r.Err? ==> forall listing :: multiset(listing) == multiset(slabs) ==> !WellFormed(listing)
  {
    var sorted := Sorted(slabs);
    SortedSorts(slabs);
    assert |multiset(sorted)| == |multiset(slabs)|;
    OnlySortedCanBeWellFormed(slabs);
    if sorted[0].incomeFrom != 0.0 {
      return Err(MustStartAtZero);
    }
    for i := 0 to |sorted|
      invariant forall k :: 0 <= k < i && k < |sorted| - 1 ==> MeetsNext(sorted[k], sorted[k + 1])
      invariant i == |sorted| ==> sorted[i - 1].incomeTo.None?
    {
      var slab := sorted[i];
      assert i < |sorted| - 1 && Contiguous(sorted) ==> MeetsNext(slab, sorted[i + 1]);
      if i == |sorted| - 1 {
        if slab.incomeTo.Some? {
          return Err(LastMustBeOpenEnded);
        }
      } else {
        if slab.incomeTo.None? {
          return Err(OnlyLastMayBeOpenEnded);
        }
        if slab.incomeTo.value <= slab.incomeFrom {
          return Err(MustEndAfterStart);
        }
        if slab.incomeTo.value != sorted[i + 1].incomeFrom {
          return Err(MustBeContiguous);
        }
      }
    }
    return Ok(sorted);
  }

  lemma OnlySortedCanBeWellFormed(slabs: seq<Slab>)
    ensures forall listing :: multiset(listing) == multiset(slabs) && WellFormed(listing) ==> listing == Sorted(slabs)
  {
    forall listing: seq<Slab> | multiset(listing) == multiset(slabs) && WellFormed(listing)
      ensures listing == Sorted(slabs)
    {
      SortedSorts(slabs);
      forall i, j | 0 <= i < j < |listing|
        ensures listing[i].incomeFrom < listing[j].incomeFrom
      {
        ContiguousAscends(listing, i, j);
      }
      AscendingIsUnique(Sorted(slabs), listing);
    }
  }

  // ---- Slab tax ----

  function Min(a: real, b: real): real {
    if a < b then a else b
  }

  function Max(a: real, b: real): real {
    if a > b then a else b
  }

  /** The part of `income` that falls into `slab`. */
  function Portion(income: real, slab: Slab): real {
    if income <= slab.incomeFrom then 0.0
    else
      var upper := if slab.incomeTo.None? then income else Min(income, slab.incomeTo.value);
      Max(0.0, upper - slab.incomeFrom)
  }

  function Charge(amount: real, ratePercent: real): real {
    amount * ratePercent / 100.0
  }

  function SlabTax(income: real, slabs: seq<Slab>): real {
    if slabs == [] then 0.0
    else
      var last := slabs[|slabs| - 1];
      SlabTax(income, slabs[..|slabs| - 1]) + Charge(Portion(income, last), last.ratePercent)
  }

  method ComputeSlabTax(income: real, slabs: seq<Slab>) returns (tax: real)
    ensures tax == SlabTax(income, slabs)
  {
    tax := 0.0;
    for i := 0 to |slabs|
      invariant tax == SlabTax(income, slabs[..i])
    {
      var s := slabs[i];
      assert slabs[..i + 1][..i] == slabs[..i];
      if income <= s.incomeFrom {
        continue;
      }
      var upper := if s.incomeTo.None? then income else Min(income, s.incomeTo.value);
      var taxableInSlab := upper - s.incomeFrom;
      if taxableInSlab <= 0.0 {
        continue;
      }
      tax := tax + Charge(taxableInSlab, s.ratePercent);
    }
    assert slabs[..|slabs|] == slabs;
  }

  ghost function TotalPortion(income: real, slabs: seq<Slab>): real {
    if slabs == [] then 0.0
    else TotalPortion(income, slabs[..|slabs| - 1]) + Portion(income, slabs[|slabs| - 1])
  }

  lemma {:induction false} PortionsBelow(income: real, slabs: seq<Slab>, n: nat)
    requires WellFormed(slabs) && n < |slabs| && income >= 0.0
    ensures TotalPortion(income, slabs[..n]) == Min(income, slabs[n].incomeFrom)
  {
    if n > 0 {
      PortionsBelow(income, slabs, n - 1);
      assert slabs[..n][..n - 1] == slabs[..n - 1];
      ContiguousAscends(slabs, n - 1, n);
    }
  }

  /** The slabs split every income exactly. */
  lemma IncomeIsSplitExactly(income: real, slabs: seq<Slab>)
    requires WellFormed(slabs) && income >= 0.0
    ensures TotalPortion(income, slabs) == income
  {
    PortionsBelow(income, slabs, |slabs| - 1);
  }

  ghost predicate PercentRates(slabs: seq<Slab>) {
    forall i :: 0 <= i < |slabs| ==> 0.0 <= slabs[i].ratePercent <= 100.0
  }

  lemma ChargeBounds(lower: real, upper: real, ratePercent: real)
    requires lower <= upper && 0.0 <= ratePercent <= 100.0
    ensures 0.0 <= Charge(upper, ratePercent) - Charge(lower, ratePercent) <= upper - lower
  {
    var d, share := upper - lower, ratePercent / 100.0;
    assert Charge(upper, ratePercent) - Charge(lower, ratePercent) == d * share;
    assert 0.0 <= share <= 1.0;
    assert 0.0 <= d * share <= d;
  }

  lemma {:induction false} TaxGrowsWithinPortions(x: real, y: real, slabs: seq<Slab>)
    requires PercentRates(slabs) && x <= y
    ensures 0.0 <= SlabTax(y, slabs) - SlabTax(x, slabs) <= TotalPortion(y, slabs) - TotalPortion(x, slabs)
  {
    if slabs != [] {
      var last := slabs[|slabs| - 1];
      TaxGrowsWithinPortions(x, y, slabs[..|slabs| - 1]);
      ChargeBounds(Portion(x, last), Portion(y, last), last.ratePercent);
    }
  }

  /** Slab tax never falls as income rises, and never rises by more than the income does. */
  lemma SlabTaxGrowsGently(x: real, y: real, slabs: seq<Slab>)
    requires WellFormed(slabs) && PercentRates(slabs) && 0.0 <= x <= y
    ensures 0.0 <= SlabTax(y, slabs) - SlabTax(x, slabs) <= y - x
  {
    TaxGrowsWithinPortions(x, y, slabs);
    IncomeIsSplitExactly(x, slabs);
    IncomeIsSplitExactly(y, slabs);
  }

  lemma {:induction false} NoTaxOnNothing(slabs: seq<Slab>)
    requires forall i :: 0 <= i < |slabs| ==> slabs[i].incomeFrom >= 0.0
    ensures SlabTax(0.0, slabs) == 0.0
  {
    if slabs != [] {
      NoTaxOnNothing(slabs[..|slabs| - 1]);
    }
  }

  lemma SlabTaxNonNegative(x: real, slabs: seq<Slab>)
    requires WellFormed(slabs) && PercentRates(slabs) && x >= 0.0
    ensures 0.0 <= SlabTax(x, slabs) <= x
  {
    forall i | 0 <= i < |slabs|
      ensures slabs[i].incomeFrom >= 0.0
    {
      if i > 0 {
        ContiguousAscends(slabs, 0, i);
      }
    }
    NoTaxOnNothing(slabs);
    SlabTaxGrowsGently(0.0, x, slabs);
  }

  // ---- Rebate and marginal relief ----

  datatype RegimeConfig = RegimeConfig(
    standardDeduction: real, cessPercent: real, rebateThreshold: real, rebateMaxAmount: real)

  function TaxableIncome(gross: real, exemptions: real, config: RegimeConfig): real {
    Max(0.0, gross - config.standardDeduction - exemptions)
  }

  /** Tax after rebate and relief, before cess. */
  function TaxBeforeCess(income: real, slabs: seq<Slab>, config: RegimeConfig, marginalRelief: bool): real {
    var tax := SlabTax(income, slabs);
    if income <= config.rebateThreshold then Max(0.0, tax - config.rebateMaxAmount)
    else if marginalRelief && SlabTax(config.rebateThreshold, slabs) <= config.rebateMaxAmount then
      Min(tax, income - config.rebateThreshold)
    else tax
  }

  function AnnualTax(gross: real, exemptions: real, slabs: seq<Slab>, config: RegimeConfig, marginalRelief: bool): real
  {
    var tax := TaxBeforeCess(TaxableIncome(gross, exemptions, config), slabs, config, marginalRelief);
    tax + Charge(tax, config.cessPercent)
  }

  method ProjectAnnualTax(gross: real, exemptions: real, slabs: seq<Slab>, config: RegimeConfig, marginalRelief: bool)
    returns (annual: real)
    ensures annual == AnnualTax(gross, exemptions, slabs, config, marginalRelief)
  {
    var taxableIncome := Max(0.0, gross - config.standardDeduction - exemptions);
    var tax := ComputeSlabTax(taxableIncome, slabs);
    if taxableIncome <= config.rebateThreshold {
      tax := Max(0.0, tax - config.rebateMaxAmount);
    } else if marginalRelief {
      var atThreshold := ComputeSlabTax(config.rebateThreshold, slabs);
      if atThreshold <= config.rebateMaxAmount {
        tax := Min(tax, taxableIncome - config.rebateThreshold);
      }
    }
    annual := tax + Charge(tax, config.cessPercent);
  }

  /** Slabs and a configuration that the settings screens accept. */
  ghost predicate ValidRegime(slabs: seq<Slab>, config: RegimeConfig) {
    && WellFormed(slabs) && PercentRates(slabs)
    && config.standardDeduction >= 0.0 && 0.0 <= config.cessPercent <= 100.0
    && config.rebateThreshold >= 0.0 && config.rebateMaxAmount >= 0.0
  }

  /** More income never means less tax. */
  lemma TaxNeverFalls(x: real, y: real, slabs: seq<Slab>, config: RegimeConfig, marginalRelief: bool)
    requires ValidRegime(slabs, config) && 0.0 <= x <= y
    ensures 0.0 <= TaxBeforeCess(x, slabs, config, marginalRelief)
                <= TaxBeforeCess(y, slabs, config, marginalRelief)
  {
    SlabTaxGrowsGently(x, y, slabs);
    SlabTaxNonNegative(x, slabs);
    SlabTaxNonNegative(y, slabs);
    if x <= config.rebateThreshold < y {
      SlabTaxGrowsGently(x, config.rebateThreshold, slabs);
    }
  }

  /** One more rupee of income never costs more than a rupee of tax. */
  ghost predicate NoCliff(slabs: seq<Slab>, config: RegimeConfig, marginalRelief: bool) {
    forall x, y :: 0.0 <= x <= y ==>
      TaxBeforeCess(y, slabs, config, marginalRelief) - TaxBeforeCess(x, slabs, config, marginalRelief) <= y - x
  }

  /** The rebate is phased out by the relief, or there is nothing to lose at the threshold. */
  predicate CliffAvoided(slabs: seq<Slab>, config: RegimeConfig, marginalRelief: bool) {
    var atThreshold := SlabTax(config.rebateThreshold, slabs);
    (marginalRelief && atThreshold <= config.rebateMaxAmount) || config.rebateMaxAmount == 0.0 || atThreshold == 0.0
  }

  lemma TaxRisesGently(x: real, y: real, slabs: seq<Slab>, config: RegimeConfig, marginalRelief: bool)
    requires ValidRegime(slabs, config) && 0.0 <= x <= y && CliffAvoided(slabs, config, marginalRelief)
    ensures TaxBeforeCess(y, slabs, config, marginalRelief) - TaxBeforeCess(x, slabs, config, marginalRelief) <= y - x
  {
    var threshold := config.rebateThreshold;
    SlabTaxGrowsGently(x, y, slabs);
    SlabTaxNonNegative(x, slabs);
    if x <= threshold < y {
      SlabTaxGrowsGently(x, threshold, slabs);
      SlabTaxGrowsGently(threshold, y, slabs);
    }
  }

  /**
   * There is no tax cliff exactly when marginal relief applies and the rebate covers the tax at the threshold, or the
   * rebate takes nothing off there.
   */
  lemma NoTaxCliff(slabs: seq<Slab>, config: RegimeConfig, marginalRelief: bool)
    requires ValidRegime(slabs, config)
    ensures NoCliff(slabs, config, marginalRelief) <==> CliffAvoided(slabs, config, marginalRelief)
  {
    if CliffAvoided(slabs, config, marginalRelief) {
      forall x, y | 0.0 <= x <= y
        ensures TaxBeforeCess(y, slabs, config, marginalRelief) - TaxBeforeCess(x, slabs, config, marginalRelief) <=
          y - x
      {
        TaxRisesGently(x, y, slabs, config, marginalRelief);
      }
    } else {
      var threshold := config.rebateThreshold;
      SlabTaxNonNegative(threshold, slabs);
      var jump := Min(SlabTax(threshold, slabs), config.rebateMaxAmount);
      var above := threshold + jump / 2.0;
      SlabTaxGrowsGently(threshold, above, slabs);
      assert TaxBeforeCess(above, slabs, config, marginalRelief)
          - TaxBeforeCess(threshold, slabs, config, marginalRelief) >= jump;
    }
  }

  // ---- The two default regimes ----

  const OLD_SLABS := [Slab(0.0, Some(250000.0), 0.0), Slab(250000.0, Some(500000.0), 5.0),
                      Slab(500000.0, Some(1000000.0), 20.0), Slab(1000000.0, None, 30.0)]

  const OLD_CONFIG := RegimeConfig(50000.0, 4.0, 500000.0, 12500.0)

  const NEW_SLABS := [Slab(0.0, Some(400000.0), 0.0), Slab(400000.0, Some(800000.0), 5.0),
                      Slab(800000.0, Some(1200000.0), 10.0), Slab(1200000.0, Some(1600000.0), 15.0),
                      Slab(1600000.0, Some(2000000.0), 20.0), Slab(2000000.0, Some(2400000.0), 25.0),
                      Slab(2400000.0, None, 30.0)]

  const NEW_CONFIG := RegimeConfig(75000.0, 4.0, 1200000.0, 60000.0)

  lemma OldSlabTax(income: real)
    requires 500000.0 <= income <= 1000000.0
    ensures SlabTax(income, OLD_SLABS) == 12500.0 + (income - 500000.0) / 5.0
  {
    var s := OLD_SLABS;
    assert s[..3][..2] == s[..2] && s[..2][..1] == s[..1] && s[..1][..0] == [];
    assert SlabTax(income, s[..1]) == 0.0 && SlabTax(income, s[..2]) == 12500.0;
    assert SlabTax(income, s[..3]) == 12500.0 + (income - 500000.0) / 5.0;
  }

  /** The old regime, which has no relief, takes 12,500 rupees more for one rupee above its rebate threshold. */
  lemma OldRegimeHasCliff()
    ensures ValidRegime(OLD_SLABS, OLD_CONFIG) && !NoCliff(OLD_SLABS, OLD_CONFIG, false)
    ensures TaxBeforeCess(500000.0, OLD_SLABS, OLD_CONFIG, false) == 0.0
    ensures TaxBeforeCess(500001.0, OLD_SLABS, OLD_CONFIG, false) == 12500.2
  {
    OldSlabTax(500000.0);
    OldSlabTax(500001.0);
    NoTaxCliff(OLD_SLABS, OLD_CONFIG, false);
  }

  /** The new regime, with relief, has no cliff. */
  lemma NewRegimeHasNone()
    ensures ValidRegime(NEW_SLABS, NEW_CONFIG) && NoCliff(NEW_SLABS, NEW_CONFIG, true)
  {
    var s, income := NEW_SLABS, 1200000.0;
    assert s[..6][..5] == s[..5] && s[..5][..4] == s[..4] && s[..4][..3] == s[..3] && s[..3][..2] == s[..2];
    assert s[..2][..1] == s[..1] && s[..1][..0] == [];
    assert SlabTax(income, s[..1]) == 0.0 && SlabTax(income, s[..2]) == 20000.0 && SlabTax(income, s[..3]) == 60000.0;
    assert SlabTax(income, s[..4]) == SlabTax(income, s[..5]) == SlabTax(income, s[..6]) == SlabTax(income, s) ==
      60000.0;
    NoTaxCliff(NEW_SLABS, NEW_CONFIG, true);
  }

  /** The whole-year tax never falls as the year's gross rises. */
  lemma AnnualTaxNeverFalls(g: real, h: real, exemptions: real, slabs: seq<Slab>, config: RegimeConfig,
      marginalRelief: bool)
    requires ValidRegime(slabs, config) && g <= h
    ensures 0.0 <= AnnualTax(g, exemptions, slabs, config, marginalRelief)
                <= AnnualTax(h, exemptions, slabs, config, marginalRelief)
  {
    var x, y := TaxableIncome(g, exemptions, config), TaxableIncome(h, exemptions, config);
    TaxNeverFalls(x, y, slabs, config, marginalRelief);
    ChargeBounds(0.0, TaxBeforeCess(x, slabs, config, marginalRelief), config.cessPercent);
    ChargeBounds(TaxBeforeCess(x, slabs, config, marginalRelief), TaxBeforeCess(y, slabs, config, marginalRelief),
      config.cessPercent);
  }
}
