/** The Indian financial year, April to March, as payroll periods. */
module FinancialYear {
  /** A payroll period: month 1 to 12 of a calendar year. */
  datatype Period = Period(year: int, month: int)

  predicate IsPeriod(p: Period) {
    1 <= p.month <= 12
  }

  /** The calendar year in which the financial year of `p` starts. */
  function StartYear(p: Period): int {
    if p.month >= 4 then p.year else p.year - 1
  }

  /** Months are counted from a common origin, so that periods are ordered by this number. */
  function Ordinal(p: Period): int {
    12 * p.year + p.month
  }

  /** The `i`-th period of the financial year that starts in `startYear`, counted from 0. */
  function NthPeriod(startYear: int, i: int): Period {
    var absoluteMonth := 4 + i;
    Period(startYear + (absoluteMonth - 1) / 12, (absoluteMonth - 1) % 12 + 1)
  }

  function Periods(p: Period): (periods: seq<Period>)
    ensures |periods| == 12 && forall i :: 0 <= i < 12 ==> periods[i] == NthPeriod(StartYear(p), i)
  {
    seq(12, i => NthPeriod(StartYear(p), i))
  }

  method FinancialYearPeriods(p: Period) returns (periods: seq<Period>)
    ensures periods == Periods(p)
  {
    var startYear := if p.month >= 4 then p.year else p.year - 1;
    periods := [];
    for i := 0 to 12
      invariant |periods| == i && forall k :: 0 <= k < i ==> periods[k] == NthPeriod(startYear, k)
    {
      var absoluteMonth := 4 + i;
      var y := startYear + (absoluteMonth - 1) / 12;
      var m := (absoluteMonth - 1) % 12 + 1;
      periods := periods + [Period(y, m)];
    }
  }

  /** The place of `p` in its financial year: 0 for April, 11 for March. */
  function IndexInYear(p: Period): int {
    if p.month >= 4 then p.month - 4 else p.month + 8
  }

  function IndexOf(periods: seq<Period>, p: Period): (i: int)
    ensures -1 <= i < |periods|
    ensures i == -1 <==> p !in periods
    ensures i >= 0 ==> periods[i] == p && p !in periods[..i]
  {
    if periods == [] then -1
    else
      var front := periods[..|periods| - 1];
      var i := IndexOf(front, p);
      assert periods == front + [periods[|periods| - 1]];
      if i >= 0 then
        assert periods[..i] == front[..i];
        i
      else if periods[|periods| - 1] == p then |periods| - 1
      else -1
  }

  function MonthsRemaining(p: Period): int {
    12 - IndexOf(Periods(p), p)
  }

  function Elapsed(p: Period): seq<Period> {
    var periods := Periods(p);
    var i := IndexOf(periods, p);
    // JavaScript's slice(0, -1) drops the last element; no period of the year gets there.
    if i >= 0 then periods[..i] else periods[..11]
  }

  lemma NthPeriodIsMonth(startYear: int, i: int)
    requires 0 <= i < 12
    ensures var p := NthPeriod(startYear, i);
            IsPeriod(p) && StartYear(p) == startYear && IndexInYear(p) == i && Ordinal(p) == 12 * startYear + 4 + i
  {
    if i < 9 {
      assert (3 + i) / 12 == 0;
    } else {
      assert (3 + i) / 12 == 1;
    }
  }

  /** A period is found at its own place in its year, so April has 12 months left and March has one. */
  lemma PlaceInYear(p: Period)
    requires IsPeriod(p)
    ensures IndexOf(Periods(p), p) == IndexInYear(p)
    ensures MonthsRemaining(p) == 12 - IndexInYear(p) && 1 <= MonthsRemaining(p) <= 12
    ensures Elapsed(p) == Periods(p)[..IndexInYear(p)]
  {
    var i := IndexInYear(p);
    NthPeriodIsMonth(StartYear(p), i);
    assert Periods(p)[i] == p;
    forall k | 0 <= k < 12 && Periods(p)[k] == p
      ensures k == i
    {
      NthPeriodIsMonth(StartYear(p), k);
    }
  }

  /** The elapsed periods are exactly the earlier ones of the same financial year. */
  lemma ElapsedIsEarlierInYear(p: Period, q: Period)
    requires IsPeriod(p) && IsPeriod(q)
    ensures q in Elapsed(p) <==> StartYear(q) == StartYear(p) && Ordinal(q) < Ordinal(p)
  {
    PlaceInYear(p);
    NthPeriodIsMonth(StartYear(p), IndexInYear(p));
    NthPeriodIsMonth(StartYear(q), IndexInYear(q));
    if q in Elapsed(p) {
      var k :| 0 <= k < IndexInYear(p) && Periods(p)[k] == q;
      NthPeriodIsMonth(StartYear(p), k);
    }
    if StartYear(q) == StartYear(p) && Ordinal(q) < Ordinal(p) {
      assert Elapsed(p)[IndexInYear(q)] == q;
    }
  }
}
