/**
 * The leave credit calculator. Days are counted in hundredths, dates are day numbers, and a leave
 * year is given by the thirteen month boundaries it spans.
 */
module LeaveEntitlement {
  import opened Integers
  import opened Sequences
  import opened Wrappers

  datatype Frequency = Annual | Monthly | Quarterly

  /** Half-open `[Start(), End())`; `bounds[i]` is the first day of the year's `i`-th month. */
  datatype LeaveYear = LeaveYear(year: int, bounds: seq<int>) {
    ghost predicate Valid() {
      |bounds| == 13 && forall i, j :: 0 <= i < j < 13 ==> bounds[i] < bounds[j]
    }

    function Start(): int
      requires |bounds| == 13
    {
      bounds[0]
    }

    function End(): int
      requires |bounds| == 13
    {
      bounds[12]
    }
  }

  datatype Period = Period(start: int, end: int)

  datatype Credit = Credit(periodStart: int, occurredAt: int, amount: int)

  /** Days of one whole day, in hundredths. */
  const DAY := 100

  /** `a / b` to the nearest integer, halves up. */
  function RoundDiv(a: int, b: int): int
    requires b > 0
  {
    (2 * a + b) / (2 * b)
  }

  /** The periods of the year: months, quarters, or the year itself. */
  function PeriodsOf(f: Frequency, w: LeaveYear): (periods: seq<Period>)
    requires w.Valid()
  {
    match f
    case Annual => [Period(w.Start(), w.End())]
    case Monthly => seq(12, i requires 0 <= i < 12 => Period(w.bounds[i], w.bounds[i + 1]))
    case Quarterly => seq(4, i requires 0 <= i < 4 => Period(w.bounds[3 * i], w.bounds[3 * i + 3]))
  }

  method AccrualPeriods(f: Frequency, w: LeaveYear) returns (periods: seq<Period>)
    requires w.Valid() && !f.Annual?
    ensures periods == PeriodsOf(f, w)
  {
    var step := if f.Monthly? then 1 else 3;
    periods := [];
    var i := 0;
    while i < 12
      invariant 0 <= i <= 12 && i == (if step == 1 then |periods| else 3 * |periods|)
      invariant periods == PeriodsOf(f, w)[..|periods|]
    {
      periods := periods + [Period(w.bounds[i], w.bounds[i + step])];
      i := i + step;
    }
  }

  /** Periods tile the year: each starts where the one before ends, and none is empty. */
  lemma PeriodsTile(f: Frequency, w: LeaveYear)
    requires w.Valid()
    ensures var ps := PeriodsOf(f, w);
            && |ps| > 0 && ps[0].start == w.Start() && ps[|ps| - 1].end == w.End()
            && (forall i :: 0 <= i < |ps| ==> w.Start() <= ps[i].start < ps[i].end <= w.End())
            && (forall i, j :: 0 <= i < j < |ps| ==> ps[i].end <= ps[j].start)
            && (forall i :: 0 <= i < |ps| - 1 ==> ps[i].end == ps[i + 1].start)
  {
  }

  function Containing(periods: seq<Period>, date: int): Option<Period> {
    if periods == [] then None
    else if periods[0].start <= date < periods[0].end then Some(periods[0])
    else Containing(periods[1..], date)
  }

  /** The period that `date` falls in, if it is in the year at all. */
  function PeriodContaining(f: Frequency, w: LeaveYear, date: int): Option<Period>
    requires w.Valid()
  {
    if date < w.Start() || date >= w.End() then None
    else Containing(PeriodsOf(f, w), date)
  }

  lemma {:induction false} ContainingFinds(periods: seq<Period>, i: nat, date: int)
    requires i < |periods| && periods[i].start <= date < periods[i].end
    requires forall j, k :: 0 <= j < k < |periods| ==> periods[j].end <= periods[k].start
    ensures Containing(periods, date) == Some(periods[i])
  {
    if i > 0 {
      assert periods[0].end <= periods[i].start;
      ContainingFinds(periods[1..], i - 1, date);
    }
  }

  lemma PeriodOfDate(f: Frequency, w: LeaveYear, i: nat, date: int)
    requires w.Valid() && i < |PeriodsOf(f, w)|
    requires PeriodsOf(f, w)[i].start <= date < PeriodsOf(f, w)[i].end
    ensures PeriodContaining(f, w, date) == Some(PeriodsOf(f, w)[i])
  {
    PeriodsTile(f, w);
    ContainingFinds(PeriodsOf(f, w), i, date);
  }

  lemma {:induction false} ContainingExists(periods: seq<Period>, date: int)
    requires periods != [] && periods[0].start <= date < periods[|periods| - 1].end
    requires forall i :: 0 <= i < |periods| - 1 ==> periods[i].end == periods[i + 1].start
    ensures Containing(periods, date).Some? && Containing(periods, date).value in periods
    ensures Containing(periods, date).value.start <= date < Containing(periods, date).value.end
  {
    if date >= periods[0].end {
      assert |periods| > 1;
      ContainingExists(periods[1..], date);
    }
  }

  /** Every day of the year falls in a period. */
  lemma EveryDayHasPeriod(f: Frequency, w: LeaveYear, date: int)
    requires w.Valid() && w.Start() <= date < w.End()
    ensures PeriodContaining(f, w, date).Some?
    ensures var p := PeriodContaining(f, w, date).value; p in PeriodsOf(f, w) && p.start <= date < p.end
  {
    PeriodsTile(f, w);
    ContainingExists(PeriodsOf(f, w), date);
  }

  /** Nothing is credited from before this day: the year, the employment or the use of the system begins then. */
  function EffectiveStartOf(w: LeaveYear, dateOfJoining: Option<int>, goLive: Option<int>): int
    requires w.Valid()
  {
    Max(Max(w.Start(), dateOfJoining.OrElse(w.Start())), goLive.OrElse(w.Start()))
  }

  method EffectiveStart(w: LeaveYear, dateOfJoining: Option<int>, goLive: Option<int>) returns (start: int)
    requires w.Valid()
    ensures start == EffectiveStartOf(w, dateOfJoining, goLive)
    ensures start >= w.Start()
    ensures forall d :: (dateOfJoining == Some(d) || goLive == Some(d)) ==> start >= d
    ensures start == w.Start() || Some(start) == dateOfJoining || Some(start) == goLive
  {
    start := w.Start();
    var dates := [dateOfJoining, goLive];
    for i := 0 to 2
      invariant start == if i == 0 then w.Start() else if i == 1 then EffectiveStartOf(w, dateOfJoining, None)
                         else EffectiveStartOf(w, dateOfJoining, goLive)
    {
      var d := dates[i];
      if d.Some? && d.value > start {
        start := d.value;
      }
    }
  }

  // ---- Credits owed ----

  /** What the calculator is given besides the ledger: fixed for one employee, type and year. */
  datatype Policy = Policy(frequency: Frequency, quota: int, window: LeaveYear, effectiveStart: int, hasOpening: bool) {
    ghost predicate Valid() {
      window.Valid() && effectiveStart >= window.Start()
    }
  }

  /** The annual grant: the quota's share of the year left, in whole days unless it is the whole year. */
  function AnnualShare(p: Policy): int
    requires p.window.Valid()
  {
    var w := p.window;
    if w.End() - p.effectiveStart >= w.End() - w.Start() then p.quota
    else DAY * RoundDiv(p.quota * (w.End() - p.effectiveStart), DAY * (w.End() - w.Start()))
  }

  /** The credit of one period: a full share, or whole days when only part of the period counts. */
  function PeriodShare(p: Policy, count: int, period: Period): int
    requires count > 0 && period.start < period.end
  {
    if p.effectiveStart > period.start then
      DAY * RoundDiv(p.quota * (period.end - p.effectiveStart), DAY * count * (period.end - period.start))
    else RoundDiv(p.quota, count)
  }

  /** The periods of a policy with the share of the quota each one earns. */
  datatype Schedule = Schedule(periods: seq<Period>, shares: seq<int>, start: int) {
    ghost predicate Valid() {
      && |periods| == |shares|
      && (forall i :: 0 <= i < |periods| ==> periods[i].start < periods[i].end)
      && (forall i, j :: 0 <= i < j < |periods| ==> periods[i].end <= periods[j].start)
    }
  }

  function ScheduleOf(p: Policy): (s: Schedule)
    requires p.Valid()
    ensures s.Valid()
  {
    PeriodsTile(p.frequency, p.window);
    var periods := PeriodsOf(p.frequency, p.window);
    Schedule(periods,
      seq(|periods|, i requires 0 <= i < |periods| => PeriodShare(p, |periods|, periods[i])),
      p.effectiveStart)
  }

  /** Whether `period` is passed over: it ended before the start, or already holds a credit. */
  predicate Skips(start: int, credited: set<int>, period: Period) {
    period.end <= start || period.start in credited
  }

  /** The loop over the periods from the `i`-th on, with `remaining` of the quota left. */
  function PeriodicCredits(s: Schedule, today: int, credited: set<int>, i: nat, remaining: int): seq<Credit>
    requires s.Valid() && i <= |s.periods|
    decreases |s.periods| - i
  {
    if i == |s.periods| || s.periods[i].start > today then []
    else if Skips(s.start, credited, s.periods[i]) || Min(s.shares[i], remaining) <= 0 then
      PeriodicCredits(s, today, credited, i + 1, remaining)
    else
      [PeriodCredit(s, i, remaining)]
      + PeriodicCredits(s, today, credited, i + 1, remaining - Min(s.shares[i], remaining))
  }

  /** Dated at the start of its period, or at the effective start when that falls inside it. */
  function PeriodCredit(s: Schedule, i: nat, remaining: int): Credit
    requires i < |s.periods| == |s.shares|
  {
    Credit(s.periods[i].start, Max(s.start, s.periods[i].start), Min(s.shares[i], remaining))
  }

  /** Credits still owed on `today`, given the credited periods and the sum credited so far. */
  function CreditsOwed(p: Policy, today: int, credited: set<int>, accrued: int): seq<Credit>
    requires p.Valid()
  {
    var remaining := p.quota - accrued;
    if p.quota <= 0 || p.effectiveStart >= p.window.End() || p.effectiveStart > today || remaining <= 0 then []
    else if p.frequency.Annual? then
      var amount := Min(AnnualShare(p), remaining);
      if p.hasOpening || credited != {} || amount <= 0 then []
      else [Credit(p.window.Start(), p.effectiveStart, amount)]
    else PeriodicCredits(ScheduleOf(p), today, credited, 0, remaining)
  }

  method CreditsDue(p: Policy, today: int, credited: set<int>, accrued: int) returns (credits: seq<Credit>)
    requires p.Valid()
    ensures credits == CreditsOwed(p, today, credited, accrued)
  {
    var start, w := p.effectiveStart, p.window;
    if p.quota <= 0 || start >= w.End() || start > today {
      return [];
    }
    var remaining := p.quota - accrued;
    if remaining <= 0 {
      return [];
    }
    if p.frequency.Annual? {
      if p.hasOpening || |credited| > 0 {
        return [];
      }
      var amount := Min(AnnualShare(p), remaining);
      return if amount > 0 then [Credit(w.Start(), start, amount)] else [];
    }
    credits := PeriodicCreditsDue(p, today, credited, remaining);
  }

  method PeriodicCreditsDue(p: Policy, today: int, credited: set<int>, quotaLeft: int) returns (credits: seq<Credit>)
    requires p.Valid() && !p.frequency.Annual?
    ensures credits == PeriodicCredits(ScheduleOf(p), today, credited, 0, quotaLeft)
  {
    var start, remaining := p.effectiveStart, quotaLeft;
    var periods := AccrualPeriods(p.frequency, p.window);
    ghost var s := ScheduleOf(p);
    credits := [];
    var i := 0;
    while i < |periods|
      invariant i <= |periods|
      invariant PeriodicCredits(s, today, credited, 0, quotaLeft)
                == credits + PeriodicCredits(s, today, credited, i, remaining)
    {
      var period := periods[i];
      if period.start > today {
        break;
      }
      if period.end > start && period.start !in credited {
        var partial := start > period.start;
        var amount := Min(PeriodShare(p, |periods|, period), remaining);
        assert PeriodShare(p, |periods|, period) == s.shares[i];
        if amount > 0 {
          var credit := Credit(period.start, if partial then start else period.start, amount);
          ConcatAssociates(credits, [credit], PeriodicCredits(s, today, credited, i + 1, remaining - amount));
          credits := credits + [credit];
          remaining := remaining - amount;
        }
      }
      i := i + 1;
    }
    assert credits + [] == credits;
  }

  /** Unused days up to the cap: as many as both allow, and none if either allows none. */
  function CarryForwardDays(previousAvailable: int, cap: int): (days: int)
    ensures days >= 0
    ensures days > 0 ==> days <= cap && days <= previousAvailable
    ensures cap > 0 && previousAvailable > 0 ==> days == cap || days == previousAvailable
  {
    if cap <= 0 || previousAvailable <= 0 then 0 else Min(previousAvailable, cap)
  }

  // ---- What a list of credits looks like ----

  function Total(credits: seq<Credit>): int {
    if credits == [] then 0 else credits[0].amount + Total(credits[1..])
  }

  lemma OneMoreCredit(c: Credit, rest: seq<Credit>)
    ensures Total([c] + rest) == c.amount + Total(rest)
  {
    assert ([c] + rest)[1..] == rest;
  }

  lemma {:induction false} TotalOfConcat(a: seq<Credit>, b: seq<Credit>)
    ensures Total(a + b) == Total(a) + Total(b)
    decreases |a|
  {
    if a == [] {
      assert a + b == b;
    } else {
      TailOfConcat(a, b);
      TotalOfConcat(a[1..], b);
    }
  }

  /** A credit of the `i`-th period: positive and dated inside it. */
  predicate InPeriod(c: Credit, periods: seq<Period>, i: nat) {
    && i < |periods| && c.amount > 0
    && c.periodStart == periods[i].start && periods[i].start <= c.occurredAt < periods[i].end
  }

  lemma {:induction false} CreditsFallInPeriods(s: Schedule, today: int, credited: set<int>, i: nat, remaining: int)
    requires s.Valid() && i <= |s.periods|
    ensures forall c :: c in PeriodicCredits(s, today, credited, i, remaining) ==>
              c.periodStart !in credited && exists k: nat :: i <= k && InPeriod(c, s.periods, k)
    decreases |s.periods| - i
  {
    if i < |s.periods| && s.periods[i].start <= today {
      if Skips(s.start, credited, s.periods[i]) || Min(s.shares[i], remaining) <= 0 {
        CreditsFallInPeriods(s, today, credited, i + 1, remaining);
      } else {
        CreditsFallInPeriods(s, today, credited, i + 1, remaining - Min(s.shares[i], remaining));
        assert InPeriod(PeriodCredit(s, i, remaining), s.periods, i);
      }
    }
  }

  /** Every owed credit is positive, dated in its own period, and for a period not yet credited. */
  lemma OwedFallInPeriods(p: Policy, today: int, credited: set<int>, accrued: int)
    requires p.Valid()
    ensures forall c :: c in CreditsOwed(p, today, credited, accrued) ==>
              c.periodStart !in credited && exists k: nat :: InPeriod(c, PeriodsOf(p.frequency, p.window), k)
  {
    if !p.frequency.Annual? {
      CreditsFallInPeriods(ScheduleOf(p), today, credited, 0, p.quota - accrued);
    } else {
      forall c | c in CreditsOwed(p, today, credited, accrued)
        ensures c.periodStart !in credited && exists k: nat :: InPeriod(c, PeriodsOf(p.frequency, p.window), k)
      {
        assert InPeriod(c, PeriodsOf(p.frequency, p.window), 0);
      }
    }
  }

  lemma {:induction false} TotalWithinRemaining(s: Schedule, today: int, credited: set<int>, i: nat, remaining: int)
    requires s.Valid() && i <= |s.periods|
    ensures 0 <= Total(PeriodicCredits(s, today, credited, i, remaining)) <= Max(remaining, 0)
    decreases |s.periods| - i
  {
    if i < |s.periods| && s.periods[i].start <= today {
      var amount := Min(s.shares[i], remaining);
      if Skips(s.start, credited, s.periods[i]) || amount <= 0 {
        TotalWithinRemaining(s, today, credited, i + 1, remaining);
      } else {
        TotalWithinRemaining(s, today, credited, i + 1, remaining - amount);
        OneMoreCredit(PeriodCredit(s, i, remaining), PeriodicCredits(s, today, credited, i + 1, remaining - amount));
      }
    }
  }

  /** Policy credits never take a type past its quota, nor past what was already credited. */
  lemma QuotaCapsCredits(p: Policy, today: int, credited: set<int>, accrued: int)
    requires p.Valid()
    ensures var credits := CreditsOwed(p, today, credited, accrued);
            && 0 <= Total(credits) && accrued + Total(credits) <= Max(p.quota, accrued)
  {
    if !p.frequency.Annual? {
      TotalWithinRemaining(ScheduleOf(p), today, credited, 0, p.quota - accrued);
    }
  }

  // ---- What the schedule has earned so far ----

  /** The positive shares of the periods from the `i`-th on that are due by `today`. */
  function SharesDue(s: Schedule, today: int, i: nat): (due: int)
    requires s.Valid() && i <= |s.periods|
    ensures due >= 0
    decreases |s.periods| - i
  {
    if i == |s.periods| || s.periods[i].start > today then 0
    else (if s.periods[i].end <= s.start then 0 else Max(s.shares[i], 0)) + SharesDue(s, today, i + 1)
  }

  lemma {:induction false} CreditsReachShares(s: Schedule, today: int, i: nat, remaining: nat)
    requires s.Valid() && i <= |s.periods|
    ensures Total(PeriodicCredits(s, today, {}, i, remaining)) == Min(remaining, SharesDue(s, today, i))
    decreases |s.periods| - i
  {
    if i < |s.periods| && s.periods[i].start <= today {
      var amount := Min(s.shares[i], remaining);
      if Skips(s.start, {}, s.periods[i]) || amount <= 0 {
        CreditsReachShares(s, today, i + 1, remaining);
      } else {
        CreditsReachShares(s, today, i + 1, remaining - amount);
        OneMoreCredit(PeriodCredit(s, i, remaining), PeriodicCredits(s, today, {}, i + 1, remaining - amount));
      }
    }
  }

  /** The days the policy has earned by `today`, were there no quota to stop at. */
  function EarnedBy(p: Policy, today: int): (due: int)
    requires p.Valid()
    ensures due >= 0
  {
    if p.quota <= 0 || p.effectiveStart >= p.window.End() || p.effectiveStart > today then 0
    else if p.frequency.Annual? then if p.hasOpening then 0 else Max(AnnualShare(p), 0)
    else SharesDue(ScheduleOf(p), today, 0)
  }

  /** With no period credited, what is owed is what was earned, up to what is left of the quota. */
  lemma OwedIsEarned(p: Policy, today: int, accrued: int)
    requires p.Valid() && p.quota > 0 && accrued <= p.quota
    ensures Total(CreditsOwed(p, today, {}, accrued)) == Min(p.quota - accrued, EarnedBy(p, today))
  {
    if p.effectiveStart < p.window.End() && p.effectiveStart <= today && !p.frequency.Annual? && accrued < p.quota {
      CreditsReachShares(ScheduleOf(p), today, 0, p.quota - accrued);
    }
  }

  // ---- A full year of periodic credits ----

  /** `k` full shares. */
  function Shares(k: nat, full: int): int {
    if k == 0 then 0 else Shares(k - 1, full) + full
  }

  lemma {:induction false} SharesMultiply(k: nat, full: int)
    ensures Shares(k, full) == k * full
  {
    if k > 0 {
      SharesMultiply(k - 1, full);
      assert k * full == (k - 1) * full + full;
    }
  }

  lemma {:induction false} SharesNonNegative(k: nat, full: int)
    requires full >= 0
    ensures Shares(k, full) >= 0
  {
    if k > 0 {
      SharesNonNegative(k - 1, full);
    }
  }

  lemma {:induction false} FullPeriodsAddUp(s: Schedule, full: nat, today: int, i: nat, left: nat)
    requires s.Valid() && i <= |s.periods|
    requires forall k :: 0 <= k < |s.periods| ==>
               s.shares[k] == full && s.periods[k].start <= today && s.start <= s.periods[k].start
    ensures Total(PeriodicCredits(s, today, {}, i, left)) == Min(left, Shares(|s.periods| - i, full))
    decreases |s.periods| - i
  {
    if i < |s.periods| {
      var amount := Min(full, left);
      SharesNonNegative(|s.periods| - i - 1, full);
      FullPeriodsAddUp(s, full, today, i + 1, left - amount);
      if amount > 0 {
        OneMoreCredit(PeriodCredit(s, i, left), PeriodicCredits(s, today, {}, i + 1, left - amount));
      }
    }
  }

  lemma NearestTwelfth(quota: int)
    requires quota > 0
    ensures 12 * RoundDiv(quota, 12) == quota - quota % 12 + if 2 * (quota % 12) >= 12 then 12 else 0
  {
  }

  lemma NearestQuarter(quota: int)
    requires quota > 0
    ensures 4 * RoundDiv(quota, 4) == quota - quota % 4 + if 2 * (quota % 4) >= 4 then 4 else 0
  {
  }

  lemma NearestShare(quota: int, n: int)
    requires quota > 0 && (n == 12 || n == 4)
    ensures RoundDiv(quota, n) >= 0
    ensures var total := Min(quota, n * RoundDiv(quota, n));
            && total <= quota && 2 * (quota - total) <= n
            && (total == quota <==> quota % n == 0 || 2 * (quota % n) >= n)
  {
    if n == 12 {
      NearestTwelfth(quota);
    } else {
      NearestQuarter(quota);
    }
  }

  /** An employee present all year ends within half a hundredth of a day per period of the quota, never above it. */
  lemma FullYearAccrual(p: Policy, today: int)
    requires p.Valid() && !p.frequency.Annual? && p.quota > 0
    requires p.effectiveStart == p.window.Start() && today >= p.window.bounds[11]
    ensures var n := |PeriodsOf(p.frequency, p.window)|;
            var total := Total(CreditsOwed(p, today, {}, 0));
            && total <= p.quota && 2 * (p.quota - total) <= n
            && (total == p.quota <==> p.quota % n == 0 || 2 * (p.quota % n) >= n)
  {
    var s := ScheduleOf(p);
    var full := RoundDiv(p.quota, |s.periods|);
    NearestShare(p.quota, |s.periods|);
    PeriodsTile(p.frequency, p.window);
    FullPeriodsAddUp(s, full, today, 0, p.quota);
    SharesMultiply(|s.periods|, full);
  }

  // ---- Catching up ----

  lemma {:induction false} NothingLeftNothingOwed(s: Schedule, today: int, credited: set<int>, i: nat, remaining: int)
    requires s.Valid() && i <= |s.periods| && remaining <= 0
    ensures PeriodicCredits(s, today, credited, i, remaining) == []
    decreases |s.periods| - i
  {
    if i < |s.periods| && s.periods[i].start <= today {
      NothingLeftNothingOwed(s, today, credited, i + 1, remaining);
    }
  }

  function StartsOf(credits: seq<Credit>): set<int> {
    set c | c in credits :: c.periodStart
  }

  lemma {:induction false} SameFromHere(s: Schedule, today: int, credited: set<int>, later: set<int>, i: nat,
      remaining: int)
    requires s.Valid() && i <= |s.periods|
    requires forall k :: i <= k < |s.periods| ==> (s.periods[k].start in later <==> s.periods[k].start in credited)
    ensures PeriodicCredits(s, today, later, i, remaining) == PeriodicCredits(s, today, credited, i, remaining)
    decreases |s.periods| - i
  {
    if i < |s.periods| && s.periods[i].start <= today {
      SameFromHere(s, today, credited, later, i + 1, remaining);
      SameFromHere(s, today, credited, later, i + 1, remaining - Min(s.shares[i], remaining));
    }
  }

  /** From the `i`-th period on, `later` are the credited periods once `posted` stands in the ledger. */
  ghost predicate PostedFrom(s: Schedule, later: set<int>, credited: set<int>, posted: seq<Credit>, i: nat) {
    forall k :: i <= k < |s.periods| ==>
      (s.periods[k].start in later <==> s.periods[k].start in credited || s.periods[k].start in StartsOf(posted))
  }

  lemma CreditsComeLater(s: Schedule, today: int, credited: set<int>, i: nat, remaining: int)
    requires s.Valid() && i < |s.periods|
    ensures s.periods[i].start !in StartsOf(PeriodicCredits(s, today, credited, i + 1, remaining))
  {
    var rest := PeriodicCredits(s, today, credited, i + 1, remaining);
    CreditsFallInPeriods(s, today, credited, i + 1, remaining);
    forall c | c in rest
      ensures c.periodStart != s.periods[i].start
    {
      var k: nat :| i + 1 <= k && InPeriod(c, s.periods, k);
    }
  }

  /** Running the loop later does the same as running it before and then again: first what was posted, then the rest. */
  lemma {:induction false} CatchUpLoop(s: Schedule, before: int, today: int, credited: set<int>, later: set<int>,
      i: nat, remaining: int)
    requires s.Valid() && i <= |s.periods| && before <= today
    requires PostedFrom(s, later, credited, PeriodicCredits(s, before, credited, i, remaining), i)
    ensures var posted := PeriodicCredits(s, before, credited, i, remaining);
            PeriodicCredits(s, today, credited, i, remaining)
            == posted + PeriodicCredits(s, today, later, i, remaining - Total(posted))
    decreases |s.periods| - i
  {
    var posted := PeriodicCredits(s, before, credited, i, remaining);
    if i == |s.periods| || s.periods[i].start > before {
      SameFromHere(s, today, credited, later, i, remaining);
      assert [] + PeriodicCredits(s, today, later, i, remaining) == PeriodicCredits(s, today, later, i, remaining);
    } else if Skips(s.start, credited, s.periods[i]) || Min(s.shares[i], remaining) <= 0 {
      CreditsComeLater(s, before, credited, i, remaining);
      TotalWithinRemaining(s, before, credited, i + 1, remaining);
      CatchUpLoop(s, before, today, credited, later, i + 1, remaining);
    } else {
      var left := remaining - Min(s.shares[i], remaining);
      var c, rest := PeriodCredit(s, i, remaining), PeriodicCredits(s, before, credited, i + 1, left);
      PostedStep(s, later, credited, c, rest, i);
      CatchUpLoop(s, before, today, credited, later, i + 1, left);
      OneMoreCredit(c, rest);
      ConcatAssociates([c], rest, PeriodicCredits(s, today, later, i + 1, left - Total(rest)));
    }
  }

  lemma PostedStep(s: Schedule, later: set<int>, credited: set<int>, c: Credit, rest: seq<Credit>, i: nat)
    requires s.Valid() && i < |s.periods| && c.periodStart == s.periods[i].start
    requires PostedFrom(s, later, credited, [c] + rest, i)
    ensures c.periodStart in later && PostedFrom(s, later, credited, rest, i + 1)
  {
    var posted := [c] + rest;
    assert c in posted && s.periods[i].start in StartsOf(posted);
    forall k | i + 1 <= k < |s.periods|
      ensures s.periods[k].start in StartsOf(posted) <==> s.periods[k].start in StartsOf(rest)
    {
      assert s.periods[i].end <= s.periods[k].start;
      assert forall d :: d in posted <==> d == c || d in rest;
    }
  }

  /** Credits owed on `today` are those owed on an earlier day, then what is owed with those in the ledger. */
  lemma CatchUp(p: Policy, before: int, today: int, credited: set<int>, accrued: int)
    requires p.Valid() && before <= today
    ensures var posted := CreditsOwed(p, before, credited, accrued);
            CreditsOwed(p, today, credited, accrued)
            == posted + CreditsOwed(p, today, credited + StartsOf(posted), accrued + Total(posted))
  {
    var posted := CreditsOwed(p, before, credited, accrued);
    var again := CreditsOwed(p, today, credited + StartsOf(posted), accrued + Total(posted));
    if posted == [] {
      assert credited + StartsOf(posted) == credited;
      assert posted + again == again;
    }
    if p.frequency.Annual? {
      if posted != [] {
        assert posted[0] in posted && posted[0].periodStart in StartsOf(posted);
        assert posted + again == posted;
      }
    } else if posted != [] {
      var s, left := ScheduleOf(p), p.quota - accrued;
      CatchUpLoop(s, before, today, credited, credited + StartsOf(posted), 0, left);
      if left - Total(posted) <= 0 {
        NothingLeftNothingOwed(s, today, credited + StartsOf(posted), 0, left - Total(posted));
      }
    }
  }
}
