/** What the two tax regimes do to the tax of a month: exemptions, relief, cess and the instalments. */
module TaxRegimes {
  import opened IncomeTax
  import opened Tds

  // ---- Gross, deductions and cess ----

  /** Gross and deductions may be raised together. */
  lemma DeductionsComeOffGross(gross: real, exemptions: real, slabs: seq<Slab>, config: RegimeConfig,
      marginalRelief: bool, more: real)
    ensures AnnualTax(gross + more, exemptions + more, slabs, config, marginalRelief) ==
      AnnualTax(gross, exemptions, slabs, config, marginalRelief)
    ensures AnnualTax(gross + more, exemptions, slabs,
        config.(standardDeduction := config.standardDeduction + more), marginalRelief) ==
      AnnualTax(gross, exemptions, slabs, config, marginalRelief)
  {
    var raised := config.(standardDeduction := config.standardDeduction + more);
    assert TaxableIncome(gross + more, exemptions, raised) == TaxableIncome(gross, exemptions, config);
    assert TaxableIncome(gross + more, exemptions + more, config) == TaxableIncome(gross, exemptions, config);
  }

  /** Nothing is taxed that does not exceed the deductions. */
  lemma NothingAboveDeductions(gross: real, exemptions: real, slabs: seq<Slab>, config: RegimeConfig,
      marginalRelief: bool)
    requires ValidRegime(slabs, config) && gross <= config.standardDeduction + exemptions
    ensures AnnualTax(gross, exemptions, slabs, config, marginalRelief) == 0.0
  {
    SlabTaxNonNegative(0.0, slabs);
    assert TaxBeforeCess(0.0, slabs, config, marginalRelief) == 0.0;
    assert Charge(0.0, config.cessPercent) == 0.0;
  }

  /** A cess of c percent makes (100 + c) / 100 of the tax without one. */
  lemma CessIsOnTop(gross: real, exemptions: real, slabs: seq<Slab>, config: RegimeConfig, marginalRelief: bool)
    ensures 100.0 * AnnualTax(gross, exemptions, slabs, config, marginalRelief) ==
      (100.0 + config.cessPercent) * AnnualTax(gross, exemptions, slabs, config.(cessPercent := 0.0), marginalRelief)
  {
    var tax := TaxBeforeCess(TaxableIncome(gross, exemptions, config), slabs, config, marginalRelief);
    assert TaxBeforeCess(TaxableIncome(gross, exemptions, config), slabs, config.(cessPercent := 0.0), marginalRelief)
        == tax;
    assert Charge(tax, 0.0) == 0.0;
    assert 100.0 * Charge(tax, config.cessPercent) == config.cessPercent * tax;
  }

  // ---- The regimes ----

  /** In the new regime declared exemptions change nothing. */
  lemma NewRegimeIgnoresExemptions(profile: TaxProfile, exemptions: real, monthGross: real, elapsedGross: real,
      alreadyDeducted: real, remainingMonths: int)
    requires profile.regime.New?
    ensures MonthlyTds(profile.(exemptions := exemptions), monthGross, elapsedGross, alreadyDeducted, remainingMonths)
      == MonthlyTds(profile, monthGross, elapsedGross, alreadyDeducted, remainingMonths)
  {
  }

  /** In the old one a rupee more of exemptions makes up for a rupee more of gross in the year. */
  lemma OldRegimeExempts(profile: TaxProfile, more: real, monthGross: real, elapsedGross: real, alreadyDeducted: real,
      remainingMonths: int)
    requires profile.regime.Old?
    ensures MonthlyTds(profile.(exemptions := profile.exemptions + more), monthGross, elapsedGross + more,
        alreadyDeducted, remainingMonths) ==
      MonthlyTds(profile, monthGross, elapsedGross, alreadyDeducted, remainingMonths)
  {
    var gross := ProjectedGross(monthGross, elapsedGross, remainingMonths);
    assert ProjectedGross(monthGross, elapsedGross + more, remainingMonths) == gross + more;
    DeductionsComeOffGross(gross, profile.exemptions, profile.slabs, profile.config, false, more);
    hide AnnualTax;
  }

  /** The annual tax that the profile's regime projects for a year's gross. */
  function YearTax(profile: TaxProfile, gross: real): real {
    Projection(profile, 0.0, gross, 0)
  }

  /** The year's tax never rises by more than the rise in gross with its cess. */
  ghost predicate RisesGently(profile: TaxProfile) {
    forall g, h :: g <= h ==>
      YearTax(profile, h) - YearTax(profile, g) <= (100.0 + profile.config.cessPercent) / 100.0 * (h - g)
  }

  function Exempted(profile: TaxProfile): real {
    if profile.regime.Old? then profile.exemptions else 0.0
  }

  lemma YearTaxIs(profile: TaxProfile, gross: real)
    ensures YearTax(profile, gross) == (100.0 + profile.config.cessPercent) / 100.0 *
      TaxBeforeCess(TaxableIncome(gross, Exempted(profile), profile.config), profile.slabs, profile.config,
        profile.regime.New?)
  {
    CessIsOnTop(gross, Exempted(profile), profile.slabs, profile.config, profile.regime.New?);
    var tax := TaxBeforeCess(TaxableIncome(gross, Exempted(profile), profile.config), profile.slabs, profile.config,
      profile.regime.New?);
    assert Charge(tax, 0.0) == 0.0;
    assert TaxBeforeCess(TaxableIncome(gross, Exempted(profile), profile.config), profile.slabs,
      profile.config.(cessPercent := 0.0), profile.regime.New?) == tax;
    assert ProjectedGross(0.0, gross, 0) == gross;
    hide TaxBeforeCess;
  }

  lemma Positive(a: real, b: real)
    requires a >= 0.0 && b >= 0.0
    ensures a * b >= 0.0
  {
  }

  lemma ScaledRise(factor: real, after: real, before: real, scaledAfter: real, scaledBefore: real, rise: real)
    requires factor >= 1.0 && scaledAfter == factor * after && scaledBefore == factor * before
    ensures scaledAfter - scaledBefore <= factor * rise <==> after - before <= rise
  {
    var d := rise - (after - before);
    assert factor * rise - (scaledAfter - scaledBefore) == factor * d;
    if d >= 0.0 {
      Positive(factor, d);
    } else {
      Positive(factor - 1.0, -d);
      assert factor * d == (factor - 1.0) * d + d;
    }
  }

  lemma IncomeSpan(profile: TaxProfile, g: real, h: real)
    requires g <= h
    ensures var x, y := TaxableIncome(g, Exempted(profile), profile.config),
        TaxableIncome(h, Exempted(profile), profile.config);
      0.0 <= x <= y && y - x <= h - g
  {
  }

  /** Between two grosses the year's tax rises gently exactly when the tax before cess rises by no more than they do. */
  lemma GentleBetween(profile: TaxProfile, g: real, h: real)
    requires profile.config.cessPercent >= 0.0
    ensures YearTax(profile, h) - YearTax(profile, g) <= (100.0 + profile.config.cessPercent) / 100.0 * (h - g) <==>
      TaxBeforeCess(TaxableIncome(h, Exempted(profile), profile.config), profile.slabs, profile.config,
        profile.regime.New?)
      - TaxBeforeCess(TaxableIncome(g, Exempted(profile), profile.config), profile.slabs, profile.config,
          profile.regime.New?) <= h - g
  {
    hide *;
    YearTaxIs(profile, g);
    YearTaxIs(profile, h);
    ScaledRise((100.0 + profile.config.cessPercent) / 100.0,
      TaxBeforeCess(TaxableIncome(h, Exempted(profile), profile.config), profile.slabs, profile.config,
        profile.regime.New?),
      TaxBeforeCess(TaxableIncome(g, Exempted(profile), profile.config), profile.slabs, profile.config,
        profile.regime.New?),
      YearTax(profile, h), YearTax(profile, g), h - g);
  }

  /**
   * The projected tax of a year rises gently everywhere exactly when there is no cliff in its regime, relief being the
   * new regime's alone.
   */
  lemma GentleWithoutCliff(profile: TaxProfile)
    requires profile.config.cessPercent >= 0.0
    ensures RisesGently(profile) <==> NoCliff(profile.slabs, profile.config, profile.regime.New?)
  {
    hide TaxBeforeCess;
    hide YearTax;
    var relief := profile.regime.New?;
    if NoCliff(profile.slabs, profile.config, relief) {
      forall g, h | g <= h
        ensures YearTax(profile, h) - YearTax(profile, g) <= (100.0 + profile.config.cessPercent) / 100.0 * (h - g)
      {
        GentleBetween(profile, g, h);
        IncomeSpan(profile, g, h);
        hide TaxableIncome;
      }
    }
    if RisesGently(profile) {
      forall x, y | 0.0 <= x <= y
        ensures TaxBeforeCess(y, profile.slabs, profile.config, relief)
          - TaxBeforeCess(x, profile.slabs, profile.config, relief) <= y - x
      {
        var off := profile.config.standardDeduction + Exempted(profile);
        assert TaxableIncome(x + off, Exempted(profile), profile.config) == x;
        assert TaxableIncome(y + off, Exempted(profile), profile.config) == y;
        hide TaxableIncome;
        GentleBetween(profile, x + off, y + off);
        assert x + off <= y + off && (y + off) - (x + off) == y - x;
      }
    }
  }

  /** On the default slabs the new regime's tax rises gently, and the old regime's does not, at its rebate threshold. */
  lemma DefaultRegimes(exemptions: real)
    ensures RisesGently(TaxProfile(New, exemptions, NEW_SLABS, NEW_CONFIG))
    ensures !RisesGently(TaxProfile(Old, exemptions, OLD_SLABS, OLD_CONFIG))
  {
    NewRegimeHasNone();
    OldRegimeHasCliff();
    GentleWithoutCliff(TaxProfile(New, exemptions, NEW_SLABS, NEW_CONFIG));
    GentleWithoutCliff(TaxProfile(Old, exemptions, OLD_SLABS, OLD_CONFIG));
  }

  // ---- The instalment ----

  /**
   * What is still owed for the year is spread evenly over the months left, each to the nearest rupee; nothing is
   * deducted when no month is left or nothing is owed, and nothing is ever paid back.
   */
  lemma InstalmentIsEven(profile: TaxProfile, monthGross: real, elapsedGross: real, alreadyDeducted: real,
      remainingMonths: int)
    ensures var tds := MonthlyTds(profile, monthGross, elapsedGross, alreadyDeducted, remainingMonths);
      var owed := YearTax(profile, elapsedGross + monthGross * remainingMonths as real) - alreadyDeducted;
      && tds >= 0.0
      && (remainingMonths <= 0 || owed <= 0.0 ==> tds == 0.0)
      && (remainingMonths > 0 && owed > 0.0 ==>
            -0.5 < tds - owed / remainingMonths as real <= 0.5)
  {
    var annual := elapsedGross + monthGross * remainingMonths as real;
    assert ProjectedGross(0.0, annual, 0) == annual == ProjectedGross(monthGross, elapsedGross, remainingMonths);
    var owed := YearTax(profile, annual) - alreadyDeducted;
    hide AnnualTax;
    if remainingMonths > 0 && owed > 0.0 {
      var part := owed / remainingMonths as real;
      assert part * remainingMonths as real == owed && part > 0.0;
      RoundingIsClose(part);
      assert MonthlyTds(profile, monthGross, elapsedGross, alreadyDeducted, remainingMonths) == RoundRupee(part);
    }
  }

  /** 107,000 rupees a month in the new regime: 9,000 rupees above the threshold, so 9,360 of tax, 780 in April. */
  lemma AprilOfNewRegime(exemptions: real)
    ensures MonthlyTds(TaxProfile(New, exemptions, NEW_SLABS, NEW_CONFIG), 107000.0, 0.0, 0.0, 12) == 780.0
  {
    var income := 1209000.0;
    NewSlabTax(income);
    NewSlabTax(1200000.0);
    assert ProjectedGross(107000.0, 0.0, 12) == 1284000.0;
    assert TaxableIncome(1284000.0, 0.0, NEW_CONFIG) == income;
    assert TaxBeforeCess(income, NEW_SLABS, NEW_CONFIG, true) == 9000.0;
    assert Charge(9000.0, 4.0) == 360.0;
    assert (780.0 + 0.5).Floor == 780;
  }

  lemma NewSlabTax(income: real)
    requires 1200000.0 <= income <= 1600000.0
    ensures SlabTax(income, NEW_SLABS) == 60000.0 + (income - 1200000.0) * 15.0 / 100.0
  {
    var s := NEW_SLABS;
    assert s[..6][..5] == s[..5] && s[..5][..4] == s[..4] && s[..4][..3] == s[..3] && s[..3][..2] == s[..2];
    assert s[..2][..1] == s[..1] && s[..1][..0] == [];
    assert SlabTax(income, s[..1]) == 0.0 && SlabTax(income, s[..2]) == 20000.0 && SlabTax(income, s[..3]) == 60000.0;
    assert SlabTax(income, s[..4]) == 60000.0 + (income - 1200000.0) * 15.0 / 100.0;
    assert SlabTax(income, s[..5]) == SlabTax(income, s[..4]) && SlabTax(income, s[..6]) == SlabTax(income, s[..4]);
  }
}
