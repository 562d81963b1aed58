/**
 * An account that a recalculation does not set right: the type's frequency was changed while the type was switched off,
 * recalculated, and changed back.
 */
module LeaveFrequencyChange {
  import opened LeaveAccount
  import opened LeaveBooks
  import opened LeaveEntitlement
  import opened LeaveRecalculation
  import opened Wrappers

  /** A year of thirty-day months. */
  const EXAMPLE_YEAR := LeaveYear(2026, seq(13, i => 30 * i))

  const KEY := Key("e", "t")

  const STAFF := [Employee("e", false, None)]

  /** The type as it was credited, and as it is again at the end. */
  const MONTHLY := LeaveType("t", true, false, false, Monthly, 1200, 0)

  /** The same type switched off and made annual. */
  const IDLE_ANNUAL := LeaveType("t", false, false, false, Annual, 1200, 0)

  /** Two months credited monthly, reversed in one go as an annual grant: the first month nets below zero. */
  function ReversedAsAnnual(): Account {
    Account(Some(Balance(0, 0)),
      [Entry(KEY, 100, 100, Accrual, 0), Entry(KEY, 100, 200, Accrual, 30), Entry(KEY, -200, 0, AccrualReversal, 0)])
  }

  function CreditedMonthly(): Account {
    Account(Some(Balance(200, 0)), ReversedAsAnnual().entries[..2])
  }

  lemma ExampleDates(e: Entry)
    requires e.occurredAt == 0 || e.occurredAt == 30
    requires e.source.Accrual? || e.source.AccrualReversal?
    ensures EXAMPLE_YEAR.Valid() && IsPolicyEntry(e, EXAMPLE_YEAR)
    ensures forall start :: CountsFor(e, Annual, EXAMPLE_YEAR, start) <==> start == 0
    ensures forall start :: CountsFor(e, Monthly, EXAMPLE_YEAR, start) <==> start == e.occurredAt
  {
    PeriodOfDate(Annual, EXAMPLE_YEAR, 0, e.occurredAt);
    PeriodOfDate(Monthly, EXAMPLE_YEAR, if e.occurredAt == 0 then 0 else 1, e.occurredAt);
  }

  /** What the example's three entries come to, in either frequency. */
  lemma ExampleNets(start: int)
    ensures EXAMPLE_YEAR.Valid()
    ensures var es := ReversedAsAnnual().entries;
            && NetOf(es[..2], Annual, EXAMPLE_YEAR, start) == (if start == 0 then 200 else 0)
            && NetOf(es, Monthly, EXAMPLE_YEAR, start) == (if start == 0 then -100 else if start == 30 then 100 else 0)
            && AccruedSum(es, EXAMPLE_YEAR) == 0
            && EarliestDate(es[..2], Annual, EXAMPLE_YEAR, 0) == Some(0)
  {
    var es := ReversedAsAnnual().entries;
    forall i | 0 <= i < 3
      ensures EXAMPLE_YEAR.Valid() && IsPolicyEntry(es[i], EXAMPLE_YEAR)
      ensures CountsFor(es[i], Annual, EXAMPLE_YEAR, start) <==> start == 0
      ensures CountsFor(es[i], Monthly, EXAMPLE_YEAR, start) <==> start == es[i].occurredAt
      ensures CountsFor(es[i], Annual, EXAMPLE_YEAR, 0)
    {
      ExampleDates(es[i]);
    }
    assert es[..2] == [es[0]] + [es[1]] && es == es[..2] + [es[2]];
    NetOfThree(es[0], es[1], es[2], Annual, EXAMPLE_YEAR, start);
    NetOfThree(es[0], es[1], es[2], Monthly, EXAMPLE_YEAR, start);
    assert es[..2][..1] == [es[0]] && [es[0]][..0] == [];
    assert EarliestDate([es[0]], Annual, EXAMPLE_YEAR, 0) == Some(0);
  }

  lemma NetOfThree(a: Entry, b: Entry, c: Entry, f: Frequency, w: LeaveYear, start: int)
    requires w.Valid()
    ensures NetOf([a] + [b], f, w, start)
            == (if CountsFor(a, f, w, start) then a.delta else 0) + (if CountsFor(b, f, w, start) then b.delta else 0)
    ensures NetOf([a] + [b] + [c], f, w, start)
            == NetOf([a] + [b], f, w, start) + (if CountsFor(c, f, w, start) then c.delta else 0)
    ensures IsPolicyEntry(a, w) && IsPolicyEntry(b, w) && IsPolicyEntry(c, w) ==>
              AccruedSum([a] + [b] + [c], w) == a.delta + b.delta + c.delta
  {
    NetOfOne(a, f, w, start);
    NetOfOne(b, f, w, start);
    NetOfOne(c, f, w, start);
    NetOfConcat([a], [b], f, w, start);
    NetOfConcat([a] + [b], [c], f, w, start);
  }

  const EXAMPLE_TERMS := Terms(Monthly, 1200, EXAMPLE_YEAR, 0)

  lemma TwoMonthsOwed(hasOpening: bool, remaining: int)
    requires remaining >= 200
    ensures EXAMPLE_TERMS.Valid()
    ensures var p := Policy(Monthly, 1200, EXAMPLE_YEAR, 0, hasOpening);
            PeriodicCredits(ScheduleOf(p), 30, {}, 0, remaining) == [Credit(0, 0, 100), Credit(30, 30, 100)]
  {
    var p := Policy(Monthly, 1200, EXAMPLE_YEAR, 0, hasOpening);
    var s := ScheduleOf(p);
    assert s.periods[0] == Period(0, 30) && s.periods[1] == Period(30, 60) && s.periods[2] == Period(60, 90);
    assert s.shares[0] == 100 && s.shares[1] == 100;
    assert PeriodicCredits(s, 30, {}, 2, remaining - 200) == [];
    assert PeriodicCredits(s, 30, {}, 1, remaining - 100) == [Credit(30, 30, 100)];
  }

  lemma ExampleReversed()
    ensures EXAMPLE_YEAR.Valid()
    ensures var reversed := Reverse(KEY, Monthly, EXAMPLE_YEAR, ReversedAsAnnual(), [30]);
            && Available(reversed.row) == -100
            && AccruedSum(reversed.entries, EXAMPLE_YEAR) == -100
            && CreditedStarts(reversed.entries, Monthly, EXAMPLE_YEAR) == {}
            && !HasOpening(reversed.entries, EXAMPLE_YEAR)
  {
    var a := ReversedAsAnnual();
    var es := a.entries;
    var added := Reversals(KEY, es, Monthly, EXAMPLE_YEAR, [30], 0);
    assert [30][..0] == [];
    forall start
      ensures NetOf(es + added, Monthly, EXAMPLE_YEAR, start) <= 0
      ensures AccruedSum(es + added, EXAMPLE_YEAR) == -100
    {
      ExampleAfterReversal(start);
    }
    assert AccruedSum(es + added, EXAMPLE_YEAR) == -100 by {
      ExampleAfterReversal(0);
    }
    assert SumOfNets(es, Monthly, EXAMPLE_YEAR, [30]) == 100 by {
      ExampleNets(30);
    }
    ReversalsAreReversals(KEY, es, Monthly, EXAMPLE_YEAR, [30], 0);
  }

  lemma ExampleAfterReversal(start: int)
    ensures EXAMPLE_YEAR.Valid()
    ensures var es := ReversedAsAnnual().entries;
            var added := Reversals(KEY, es, Monthly, EXAMPLE_YEAR, [30], 0);
            && NetOf(es + added, Monthly, EXAMPLE_YEAR, start) <= 0 && AccruedSum(es + added, EXAMPLE_YEAR) == -100
  {
    var es := ReversedAsAnnual().entries;
    ExampleNets(30);
    ExampleNets(start);
    assert [30][..0] == [];
    NetOfReversals(KEY, es, Monthly, EXAMPLE_YEAR, [30], 0, start);
    NetOfConcat(es, Reversals(KEY, es, Monthly, EXAMPLE_YEAR, [30], 0), Monthly, EXAMPLE_YEAR, start);
  }

  lemma ExampleTypes()
    ensures EmployeeAt(STAFF, KEY.employeeId) == Some(STAFF[0])
    ensures TypeAt([MONTHLY], KEY.leaveTypeId) == Some(MONTHLY)
    ensures TypeAt([IDLE_ANNUAL], KEY.leaveTypeId) == Some(IDLE_ANNUAL)
    ensures EXAMPLE_YEAR.Valid() && TermsOf(EXAMPLE_YEAR, STAFF[0], MONTHLY, None) == EXAMPLE_TERMS
  {
  }

  /** On the first day of the second month the engine credits two months to an empty account. */
  lemma TwoMonthsCredited()
    ensures EXAMPLE_YEAR.Valid()
    ensures AfterRun(EXAMPLE_YEAR, STAFF, [MONTHLY], None, 30, KEY, Account(None, [])) == CreditedMonthly()
  {
    ExampleTypes();
    var two := [Credit(0, 0, 100), Credit(30, 30, 100)];
    TwoMonthsOwed(false, 1200);
    assert CreditedStarts([], Monthly, EXAMPLE_YEAR) == {} && AccruedSum([], EXAMPLE_YEAR) == 0 &&
      !HasOpening([], EXAMPLE_YEAR);
    assert Owed(EXAMPLE_TERMS, 30, []) == two;
    OneMoreCredit(Credit(0, 0, 100), [Credit(30, 30, 100)]);
    OneMoreCredit(Credit(30, 30, 100), []);
    assert [Credit(0, 0, 100)] + [Credit(30, 30, 100)] == two && Total(two) == 200;
    assert two[1..] == [Credit(30, 30, 100)] && two[1..][1..] == [];
    var es := ReversedAsAnnual().entries;
    assert CreditEntries(KEY, two[1..], 100, Accrual) == [es[1]];
    assert CreditEntries(KEY, two, 0, Accrual) == [es[0]] + [es[1]] == es[..2];
  }

  /** Switched off and annual, the account is reversed in one go and credited nothing. */
  lemma ReversedWhileIdle()
    ensures EXAMPLE_YEAR.Valid()
    ensures ListsCredited([0], CreditedMonthly().entries, Annual, EXAMPLE_YEAR)
    ensures AfterRun(EXAMPLE_YEAR, STAFF, [IDLE_ANNUAL], None, 30, KEY,
              AfterReversal(EXAMPLE_YEAR, [IDLE_ANNUAL], KEY, CreditedMonthly(), [0])) == ReversedAsAnnual()
  {
    ExampleTypes();
    var es := ReversedAsAnnual().entries;
    forall start
      ensures NetOf(es[..2], Annual, EXAMPLE_YEAR, start) == if start == 0 then 200 else 0
    {
      ExampleNets(start);
    }
    ExampleNets(0);
    assert PeriodsOf(Annual, EXAMPLE_YEAR)[0] in PeriodsOf(Annual, EXAMPLE_YEAR);
    assert [0][..0] == [];
    assert Reversals(KEY, es[..2], Annual, EXAMPLE_YEAR, [0], 200) == [es[2]];
    assert es[..2] + [es[2]] == es;
  }

  lemma TwoCredits()
    ensures Total([Credit(0, 0, 100), Credit(30, 30, 100)]) == 200
  {
    OneMoreCredit(Credit(0, 0, 100), [Credit(30, 30, 100)]);
    OneMoreCredit(Credit(30, 30, 100), []);
    assert [Credit(0, 0, 100)] + [Credit(30, 30, 100)] == [Credit(0, 0, 100), Credit(30, 30, 100)];
  }

  lemma ExampleCredited()
    ensures EXAMPLE_TERMS.Valid()
    ensures ListsCredited([30], ReversedAsAnnual().entries, Monthly, EXAMPLE_YEAR)
    ensures Total(Fresh(EXAMPLE_TERMS, 30, ReversedAsAnnual().entries)) == 200
  {
    var a := ReversedAsAnnual();
    forall start
      ensures NetOf(a.entries, Monthly, EXAMPLE_YEAR, start) == if start == 0 then -100
        else if start == 30 then 100 else 0
    {
      ExampleNets(start);
    }
    assert PeriodsOf(Monthly, EXAMPLE_YEAR)[1] in PeriodsOf(Monthly, EXAMPLE_YEAR);
    TwoMonthsOwed(HasOpening(a.entries, EXAMPLE_YEAR), 1200);
    TwoCredits();
  }

  lemma ExampleCreditedAgain()
    ensures EXAMPLE_TERMS.Valid()
    ensures var after := Recalculate(KEY, EXAMPLE_TERMS, 30, ReversedAsAnnual(), [30]);
            AccruedSum(after.entries, EXAMPLE_YEAR) == 100 && Available(after.row) == 100
  {
    var reversed := Reverse(KEY, Monthly, EXAMPLE_YEAR, ReversedAsAnnual(), [30]);
    ExampleReversed();
    TwoMonthsOwed(false, 1300);
    TwoCredits();
    var two := Owed(EXAMPLE_TERMS, 30, reversed.entries);
    assert two == [Credit(0, 0, 100), Credit(30, 30, 100)];
    OwedIsWellDated(EXAMPLE_TERMS, 30, reversed.entries);
    hide Owed;
    hide Reverse;
    ReadsBackCredits(KEY, reversed, two, Monthly, EXAMPLE_YEAR);
  }

  /**
   * Switched on again and monthly, a recalculation leaves one day, although the engine would credit two from an empty
   * policy ledger: the first month had been reversed by one day too many.
   */
  lemma FrequencyChangeLosesDays()
    ensures EXAMPLE_YEAR.Valid()
    ensures ListsCredited([30], ReversedAsAnnual().entries, Monthly, EXAMPLE_YEAR)
    ensures var after := AfterRun(EXAMPLE_YEAR, STAFF, [MONTHLY], None, 30, KEY,
                           AfterReversal(EXAMPLE_YEAR, [MONTHLY], KEY, ReversedAsAnnual(), [30]));
            && Total(Fresh(EXAMPLE_TERMS, 30, ReversedAsAnnual().entries)) == 200
            && AccruedSum(after.entries, EXAMPLE_YEAR) == 100 && Available(after.row) == 100
  {
    ExampleTypes();
    ExampleCredited();
    ExampleCreditedAgain();
    hide Reverse;
    hide Run;
  }
}
