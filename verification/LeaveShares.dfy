/** What somebody who starts in the course of the leave year is credited: whole days, to the nearest. */
module LeaveShares {
  import opened Integers
  import opened LeaveAccount
  import opened LeaveEntitlement

  /** `days` are whole days, and of those the nearest to `part` of `whole` of the amount, halves up. */
  ghost predicate NearestDays(days: int, amount: int, part: int, whole: int) {
    && days % DAY == 0
    && -(DAY * whole) < 2 * (days * whole - amount * part) <= DAY * whole
  }

  lemma RoundDivIsNearest(a: int, b: int)
    requires b > 0
    ensures -b < 2 * (b * RoundDiv(a, b) - a) <= b
  {
  }

  lemma DaysOfShare(amount: int, part: int, whole: int)
    requires whole > 0
    ensures NearestDays(DAY * RoundDiv(amount * part, DAY * whole), amount, part, whole)
  {
    var days := RoundDiv(amount * part, DAY * whole);
    RoundDivIsNearest(amount * part, DAY * whole);
    assert DAY * whole * days == DAY * days * whole;
  }

  lemma ShareIsNotNegative(amount: int, part: int, whole: int)
    requires amount >= 0 && part >= 0 && whole > 0
    ensures DAY * RoundDiv(amount * part, DAY * whole) >= 0
  {
    assert amount * part >= 0;
  }

  lemma PartialShare(p: Policy, count: int, period: Period)
    requires count > 0 && period.start < p.effectiveStart < period.end && p.quota > 0
    ensures PeriodShare(p, count, period) >= 0
    ensures NearestDays(PeriodShare(p, count, period), p.quota, period.end - p.effectiveStart,
              count * (period.end - period.start))
  {
    var left, whole := period.end - p.effectiveStart, count * (period.end - period.start);
    DaysOfShare(p.quota, left, whole);
    ShareIsNotNegative(p.quota, left, whole);
    assert DAY * count * (period.end - period.start) == DAY * whole;
  }

  lemma {:induction false} SkippedFirst(s: Schedule, today: int, credited: set<int>, i: nat, k: nat, remaining: int)
    requires s.Valid() && i <= k < |s.periods| && s.periods[k].start <= today
    requires forall j :: i <= j < k ==> Skips(s.start, credited, s.periods[j])
    ensures PeriodicCredits(s, today, credited, i, remaining) == PeriodicCredits(s, today, credited, k, remaining)
    decreases k - i
  {
    if i < k {
      assert s.periods[i].end <= s.periods[k].start;
      SkippedFirst(s, today, credited, i + 1, k, remaining);
    }
  }

  lemma {:induction false} NoneForEarlier(credits: seq<Credit>, periodStart: int)
    requires forall c :: c in credits ==> c.periodStart != periodStart
    ensures CreditOf(credits, periodStart) == 0
  {
    if credits != [] {
      assert credits[0] in credits;
      NoneForEarlier(credits[1..], periodStart);
    }
  }

  lemma FirstCredit(s: Schedule, today: int, credited: set<int>, k: nat, remaining: nat)
    requires s.Valid() && k < |s.periods| && s.periods[k].start <= today && s.shares[k] >= 0
    requires !Skips(s.start, credited, s.periods[k])
    ensures CreditOf(PeriodicCredits(s, today, credited, k, remaining), s.periods[k].start) ==
      Min(s.shares[k], remaining)
  {
    var left := if Min(s.shares[k], remaining) <= 0 then remaining else remaining - Min(s.shares[k], remaining);
    var rest := PeriodicCredits(s, today, credited, k + 1, left);
    CreditsFallInPeriods(s, today, credited, k + 1, left);
    forall c | c in rest
      ensures c.periodStart != s.periods[k].start
    {
      var j: nat :| k + 1 <= j && InPeriod(c, s.periods, j);
      assert s.periods[k].end <= s.periods[j].start;
    }
    NoneForEarlier(rest, s.periods[k].start);
  }

  /** The policy starts inside its `k`-th period, which has not been credited, on a day already reached. */
  ghost predicate StartsInside(p: Policy, today: int, credited: set<int>, accrued: int, k: nat) {
    && p.Valid() && !p.frequency.Annual? && 0 < p.quota && accrued < p.quota && p.effectiveStart <= today
    && k < |PeriodsOf(p.frequency, p.window)|
    && var period := PeriodsOf(p.frequency, p.window)[k];
       period.start < p.effectiveStart < period.end && period.start !in credited
  }

  /**
   * Somebody who starts inside a period is credited for it whole days, the nearest to the share of its quota that the
   * days left in it make, as far as the quota reaches.
   */
  lemma StartInsidePeriod(p: Policy, today: int, credited: set<int>, accrued: int, k: nat) returns (days: int)
    requires StartsInside(p, today, credited, accrued, k)
    ensures var periods := PeriodsOf(p.frequency, p.window);
            && NearestDays(days, p.quota, periods[k].end - p.effectiveStart,
                 |periods| * (periods[k].end - periods[k].start))
            && CreditOf(CreditsOwed(p, today, credited, accrued), periods[k].start) == Min(days, p.quota - accrued)
  {
    var s, periods := ScheduleOf(p), PeriodsOf(p.frequency, p.window);
    PeriodsTile(p.frequency, p.window);
    days := PeriodShare(p, |periods|, periods[k]);
    PartialShare(p, |periods|, periods[k]);
    hide NearestDays;
    hide PeriodShare;
    hide PeriodicCredits;
    forall j | 0 <= j < k
      ensures Skips(s.start, credited, s.periods[j])
    {
      assert s.periods[j].end <= s.periods[k].start;
    }
    SkippedFirst(s, today, credited, 0, k, p.quota - accrued);
    FirstCredit(s, today, credited, k, p.quota - accrued);
  }

  /** Starting later within the period never brings more for it. */
  lemma LaterStartBringsNoMore(p: Policy, later: int, today: int, credited: set<int>, accrued: int, k: nat)
    requires StartsInside(p, today, credited, accrued, k)
    requires StartsInside(p.(effectiveStart := later), today, credited, accrued, k) && p.effectiveStart <= later
    ensures var start := PeriodsOf(p.frequency, p.window)[k].start;
      CreditOf(CreditsOwed(p.(effectiveStart := later), today, credited, accrued), start) <=
      CreditOf(CreditsOwed(p, today, credited, accrued), start)
  {
    var periods := PeriodsOf(p.frequency, p.window);
    var whole := |periods| * (periods[k].end - periods[k].start);
    var more, less := p.quota * (periods[k].end - p.effectiveStart), p.quota * (periods[k].end - later);
    var days := StartInsidePeriod(p, today, credited, accrued, k);
    var fewer := StartInsidePeriod(p.(effectiveStart := later), today, credited, accrued, k);
    hide CreditsOwed;
    LaterIsLess(p.quota, periods[k].end - later, periods[k].end - p.effectiveStart);
    NearestGrows(fewer, days, less, more, whole);
  }

  /** Of two amounts the nearest whole days of the smaller are no more than those of the larger. */
  lemma NearestGrows(fewer: int, days: int, less: int, more: int, whole: int)
    requires whole > 0 && less <= more && fewer % DAY == 0 && days % DAY == 0
    requires -(DAY * whole) < 2 * (fewer * whole - less) <= DAY * whole
    requires -(DAY * whole) < 2 * (days * whole - more) <= DAY * whole
    ensures fewer <= days
  {
    assert (fewer - days) * whole == fewer * whole - days * whole;
    Cancel(fewer - days, DAY, whole);
  }

  lemma Cancel(x: int, y: int, c: int)
    requires c > 0 && x * c < y * c
    ensures x < y
  {
  }

  // ---- The annual grant ----

  /**
   * The annual grant: the quota for the whole year, and for a later start whole days, the nearest to the share of the
   * quota that the rest of the year makes; but none beside a credit or an opening balance.
   */
  lemma AnnualGrant(p: Policy, today: int, credited: set<int>, accrued: int) returns (days: int)
    requires p.Valid() && p.frequency.Annual? && 0 < p.quota && accrued < p.quota
    requires p.effectiveStart < p.window.End() && p.effectiveStart <= today
    ensures var w := p.window;
            && (p.effectiveStart == w.Start() ==> days == p.quota)
            && (p.effectiveStart > w.Start() ==>
                  NearestDays(days, p.quota, w.End() - p.effectiveStart, w.End() - w.Start()))
            && CreditOf(CreditsOwed(p, today, credited, accrued), w.Start()) ==
                 if p.hasOpening || credited != {} then 0 else Min(days, p.quota - accrued)
  {
    var w := p.window;
    days := AnnualShare(p);
    DaysOfShare(p.quota, w.End() - p.effectiveStart, w.End() - w.Start());
    assert p.quota * (w.End() - p.effectiveStart) >= 0;
    assert days >= 0;
  }

  /** A later start in the course of the year never brings a larger grant. */
  lemma LaterStartGrantsNoMore(p: Policy, later: int, today: int, credited: set<int>, accrued: int)
    requires p.Valid() && p.frequency.Annual? && 0 < p.quota && accrued < p.quota
    requires p.window.Start() < p.effectiveStart <= later < p.window.End() && later <= today
    ensures var start := p.window.Start();
      CreditOf(CreditsOwed(p.(effectiveStart := later), today, credited, accrued), start) <=
      CreditOf(CreditsOwed(p, today, credited, accrued), start)
  {
    var w := p.window;
    var days := AnnualGrant(p, today, credited, accrued);
    var fewer := AnnualGrant(p.(effectiveStart := later), today, credited, accrued);
    hide CreditsOwed;
    LaterIsLess(p.quota, w.End() - later, w.End() - p.effectiveStart);
    NearestGrows(fewer, days, p.quota * (w.End() - later), p.quota * (w.End() - p.effectiveStart),
      w.End() - w.Start());
  }

  lemma LaterIsLess(quota: int, less: int, more: int)
    requires quota > 0 && less <= more
    ensures quota * less <= quota * more
  {
  }
}
