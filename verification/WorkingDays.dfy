/**
 * Working days, loss-of-pay days of approved unpaid leave cut to a payroll month, and payable days.
 * A day is a number, day 0 being 1 January 1970, a Thursday; weekdays count from Sunday as 0.
 */
module WorkingDays {
  import opened Integers
  import opened Wrappers

  function Weekday(day: int): int {
    (day + 4) % 7
  }

  predicate IsWorkingDay(day: int, holidays: set<int>, weeklyOffs: set<int>) {
    day !in holidays && Weekday(day) !in weeklyOffs
  }

  /** The working days from `start` to `end`, both included. */
  function DaysBetween(start: int, end: int, holidays: set<int>, weeklyOffs: set<int>): set<int> {
    set day | start <= day <= end && IsWorkingDay(day, holidays, weeklyOffs)
  }

  function Count(start: int, end: int, holidays: set<int>, weeklyOffs: set<int>): nat {
    |DaysBetween(start, end, holidays, weeklyOffs)|
  }

  method CountWorkingDays(start: int, end: int, holidays: set<int>, weeklyOffs: set<int>) returns (count: nat)
    ensures count == Count(start, end, holidays, weeklyOffs)
  {
    count := 0;
    var cur := start;
    while cur <= end
      invariant start <= cur && (cur <= end + 1 || cur == start)
      invariant count == Count(start, cur - 1, holidays, weeklyOffs)
    {
      OneMoreDay(start, cur, holidays, weeklyOffs);
      if cur !in holidays && Weekday(cur) !in weeklyOffs {
        count := count + 1;
      }
      cur := cur + 1;
    }
    assert DaysBetween(start, cur - 1, holidays, weeklyOffs) == DaysBetween(start, end, holidays, weeklyOffs);
  }

  lemma OneMoreDay(start: int, day: int, holidays: set<int>, weeklyOffs: set<int>)
    requires start <= day
    ensures Count(start, day, holidays, weeklyOffs) ==
      Count(start, day - 1, holidays, weeklyOffs) + if IsWorkingDay(day, holidays, weeklyOffs) then 1 else 0
  {
    var before := DaysBetween(start, day - 1, holidays, weeklyOffs);
    assert DaysBetween(start, day, holidays, weeklyOffs) ==
      if IsWorkingDay(day, holidays, weeklyOffs) then before + {day} else before;
  }

  /** A range cut in two holds the same working days. */
  lemma CountSplits(start: int, cut: int, end: int, holidays: set<int>, weeklyOffs: set<int>)
    requires start <= cut <= end + 1
    ensures Count(start, end, holidays, weeklyOffs) ==
      Count(start, cut - 1, holidays, weeklyOffs) + Count(cut, end, holidays, weeklyOffs)
  {
    var before, after := DaysBetween(start, cut - 1, holidays, weeklyOffs), DaysBetween(cut, end, holidays, weeklyOffs);
    assert before !! after && DaysBetween(start, end, holidays, weeklyOffs) == before + after;
  }

  lemma CountWithin(start: int, end: int, outerStart: int, outerEnd: int, holidays: set<int>, weeklyOffs: set<int>)
    requires outerStart <= start && end <= outerEnd
    ensures Count(start, end, holidays, weeklyOffs) <= Count(outerStart, outerEnd, holidays, weeklyOffs)
  {
    SubsetSize(DaysBetween(start, end, holidays, weeklyOffs), DaysBetween(outerStart, outerEnd, holidays, weeklyOffs));
  }

  lemma {:induction false} SubsetSize(a: set<int>, b: set<int>)
    requires a <= b
    ensures |a| <= |b|
  {
    assert b == a + (b - a);
  }

  // ---- Loss of pay ----

  /** A leave request from `startDate` to `endDate`, both included. */
  datatype Request = Request(employeeId: string, approved: bool, isLop: bool, startDate: int, endDate: int)

  predicate IsUnpaidLeave(request: Request) {
    request.approved && request.isLop
  }

  /** The request overlaps the days from `start` up to but not including `end`. */
  predicate Overlaps(request: Request, start: int, end: int) {
    request.startDate < end && request.endDate >= start
  }

  /** The working days of a request that fall from `start` up to but not including `end`. */
  function ClippedDays(request: Request, start: int, end: int, holidays: set<int>, weeklyOffs: set<int>): nat {
    if Overlaps(request, start, end)
      then Count(Max(request.startDate, start), Min(request.endDate, end - 1), holidays, weeklyOffs)
    else 0
  }

  /** What all the employee's approved unpaid leave adds up to in that window. */
  function LopDays(requests: seq<Request>, employeeId: string, start: int, end: int, holidays: set<int>,
      weeklyOffs: set<int>): nat
  {
    if requests == [] then 0
    else
      var last := requests[|requests| - 1];
      LopDays(requests[..|requests| - 1], employeeId, start, end, holidays, weeklyOffs)
      + if last.employeeId == employeeId && IsUnpaidLeave(last) then ClippedDays(last, start, end, holidays, weeklyOffs)
        else 0
  }

  /** Requests of others, paid ones, and those pending, rejected or cancelled cost nothing, wherever they are listed. */
  lemma {:induction false} OnlyApprovedUnpaidCounts(before: seq<Request>, other: Request, after: seq<Request>,
      employeeId: string, start: int, end: int, holidays: set<int>, weeklyOffs: set<int>)
    requires other.employeeId != employeeId || !other.isLop || !other.approved
    ensures LopDays(before + [other] + after, employeeId, start, end, holidays, weeklyOffs) ==
      LopDays(before + after, employeeId, start, end, holidays, weeklyOffs)
    decreases |after|
  {
    var all := before + [other] + after;
    if after == [] {
      assert all[..|all| - 1] == before && before + after == before;
    } else {
      assert all[..|all| - 1] == before + [other] + after[..|after| - 1];
      assert (before + after)[..|before + after| - 1] == before + after[..|after| - 1];
      OnlyApprovedUnpaidCounts(before, other, after[..|after| - 1], employeeId, start, end, holidays, weeklyOffs);
    }
  }

  function DaysOf(result: map<string, nat>, employeeId: string): nat {
    if employeeId in result then result[employeeId] else 0
  }

  function HolidaysBetween(holidays: set<int>, from: int, to: int): set<int> {
    set day | day in holidays && from <= day <= to
  }

  lemma HolidaysOfWindow(start: int, end: int, from: int, to: int, holidays: set<int>, weeklyOffs: set<int>)
    requires from <= start && end <= to
    ensures Count(start, end, HolidaysBetween(holidays, from, to), weeklyOffs) ==
      Count(start, end, holidays, weeklyOffs)
  {
    assert DaysBetween(start, end, HolidaysBetween(holidays, from, to), weeklyOffs) ==
           DaysBetween(start, end, holidays, weeklyOffs);
  }

  method GetApprovedLopDaysBatch(requests: seq<Request>, start: int, end: int, allHolidays: set<int>,
      weeklyOffs: set<int>)
    returns (result: map<string, nat>)
    ensures forall id :: DaysOf(result, id) == LopDays(requests, id, start, end, allHolidays, weeklyOffs)
  {
    var inclusiveEnd := end - 1;
    var holidays := HolidaysBetween(allHolidays, start, inclusiveEnd);
    result := map[];
    for i := 0 to |requests|
      invariant forall id :: DaysOf(result, id) == LopDays(requests[..i], id, start, end, allHolidays, weeklyOffs)
    {
      var request := requests[i];
      assert requests[..i + 1][..i] == requests[..i];
      if IsUnpaidLeave(request) && request.startDate < end && request.endDate >= start {
        var clippedStart := if request.startDate < start then start else request.startDate;
        var clippedEnd := if request.endDate > inclusiveEnd then inclusiveEnd else request.endDate;
        var days := CountWorkingDays(clippedStart, clippedEnd, holidays, weeklyOffs);
        HolidaysOfWindow(clippedStart, clippedEnd, start, inclusiveEnd, allHolidays, weeklyOffs);
        result := result[request.employeeId := DaysOf(result, request.employeeId) + days];
      }
    }
    assert requests[..|requests|] == requests;
  }

  /** Month boundaries: each month runs from one of them up to the next. */
  ghost predicate Ascending(boundaries: seq<int>) {
    boundaries != [] && forall i :: 0 <= i < |boundaries| - 1 ==> boundaries[i] <= boundaries[i + 1]
  }

  /** The clipped days of every month, added up. */
  function ClippedTotal(request: Request, boundaries: seq<int>, holidays: set<int>, weeklyOffs: set<int>): nat
    requires boundaries != []
  {
    if |boundaries| == 1 then 0
    else
      ClippedTotal(request, boundaries[..|boundaries| - 1], holidays, weeklyOffs)
      + ClippedDays(request, boundaries[|boundaries| - 2], boundaries[|boundaries| - 1], holidays, weeklyOffs)
  }

  lemma ClippedSplits(request: Request, start: int, cut: int, end: int, holidays: set<int>, weeklyOffs: set<int>)
    requires start <= cut <= end
    ensures ClippedDays(request, start, end, holidays, weeklyOffs) ==
      ClippedDays(request, start, cut, holidays, weeklyOffs) + ClippedDays(request, cut, end, holidays, weeklyOffs)
  {
    var from, to := Max(request.startDate, start), Min(request.endDate, end - 1);
    if from <= cut <= to + 1 {
      CountSplits(from, cut, to, holidays, weeklyOffs);
    }
    forall s, e | s > e
      ensures Count(s, e, holidays, weeklyOffs) == 0
    {
      assert DaysBetween(s, e, holidays, weeklyOffs) == {};
    }
  }

  /** Cutting a window into consecutive months loses no day and counts none twice. */
  lemma {:induction false} MonthsAddUp(request: Request, boundaries: seq<int>, holidays: set<int>, weeklyOffs: set<int>)
    requires Ascending(boundaries)
    ensures boundaries[0] <= boundaries[|boundaries| - 1]
    ensures ClippedTotal(request, boundaries, holidays, weeklyOffs) ==
      ClippedDays(request, boundaries[0], boundaries[|boundaries| - 1], holidays, weeklyOffs)
  {
    if |boundaries| > 1 {
      var before := boundaries[..|boundaries| - 1];
      MonthsAddUp(request, before, holidays, weeklyOffs);
      ClippedSplits(request, boundaries[0], before[|before| - 1], boundaries[|boundaries| - 1], holidays, weeklyOffs);
    } else if Overlaps(request, boundaries[0], boundaries[0]) {
      assert DaysBetween(Max(request.startDate, boundaries[0]), Min(request.endDate, boundaries[0] - 1), holidays,
        weeklyOffs) == {};
    }
  }

  /** A request is charged over the months it spans for exactly its own working days. */
  lemma LopIsConserved(request: Request, boundaries: seq<int>, holidays: set<int>, weeklyOffs: set<int>)
    requires Ascending(boundaries)
    requires boundaries[0] <= request.startDate <= request.endDate < boundaries[|boundaries| - 1]
    ensures ClippedTotal(request, boundaries, holidays, weeklyOffs) ==
      Count(request.startDate, request.endDate, holidays, weeklyOffs)
  {
    MonthsAddUp(request, boundaries, holidays, weeklyOffs);
  }

  /** An employee's loss of pay over the months, added up. */
  function LopTotal(requests: seq<Request>, employeeId: string, boundaries: seq<int>, holidays: set<int>,
      weeklyOffs: set<int>): nat
    requires boundaries != []
  {
    if |boundaries| == 1 then 0
    else
      LopTotal(requests, employeeId, boundaries[..|boundaries| - 1], holidays, weeklyOffs)
      + LopDays(requests, employeeId, boundaries[|boundaries| - 2], boundaries[|boundaries| - 1], holidays, weeklyOffs)
  }

  lemma {:induction false} LopTotalOfOneMore(requests: seq<Request>, employeeId: string, boundaries: seq<int>,
      holidays: set<int>, weeklyOffs: set<int>)
    requires requests != [] && boundaries != []
    ensures var last := requests[|requests| - 1];
      LopTotal(requests, employeeId, boundaries, holidays, weeklyOffs) ==
      LopTotal(requests[..|requests| - 1], employeeId, boundaries, holidays, weeklyOffs)
      + if last.employeeId == employeeId && IsUnpaidLeave(last)
        then ClippedTotal(last, boundaries, holidays, weeklyOffs) else 0
    decreases |boundaries|
  {
    if |boundaries| > 1 {
      LopTotalOfOneMore(requests, employeeId, boundaries[..|boundaries| - 1], holidays, weeklyOffs);
    }
  }

  /** So is the batch: the months' maps add up, per employee, to the map of the whole stretch. */
  lemma {:induction false} BatchesAddUp(requests: seq<Request>, employeeId: string, boundaries: seq<int>,
      holidays: set<int>, weeklyOffs: set<int>)
    requires Ascending(boundaries)
    ensures LopTotal(requests, employeeId, boundaries, holidays, weeklyOffs) ==
      LopDays(requests, employeeId, boundaries[0], boundaries[|boundaries| - 1], holidays, weeklyOffs)
  {
    if requests == [] {
      NoRequests(employeeId, boundaries, holidays, weeklyOffs);
    } else {
      BatchesAddUp(requests[..|requests| - 1], employeeId, boundaries, holidays, weeklyOffs);
      LopTotalOfOneMore(requests, employeeId, boundaries, holidays, weeklyOffs);
      MonthsAddUp(requests[|requests| - 1], boundaries, holidays, weeklyOffs);
    }
  }

  lemma {:induction false} NoRequests(employeeId: string, boundaries: seq<int>, holidays: set<int>,
      weeklyOffs: set<int>)
    requires boundaries != []
    ensures LopTotal([], employeeId, boundaries, holidays, weeklyOffs) == 0
    decreases |boundaries|
  {
    if |boundaries| > 1 {
      NoRequests(employeeId, boundaries[..|boundaries| - 1], holidays, weeklyOffs);
    }
  }

  // ---- Payable days ----

  datatype Days = Days(workingDays: int, payableDays: int)

  function EmployedDays(periodStart: int, periodEnd: int, holidays: set<int>, weeklyOffs: set<int>,
      employedFrom: Option<int>, employedTo: Option<int>): nat
  {
    var rangeStart := if employedFrom.Some? && employedFrom.value > periodStart then employedFrom.value
      else periodStart;
    var rangeEnd := if employedTo.Some? && employedTo.value < periodEnd then employedTo.value else periodEnd;
    if rangeStart > rangeEnd then 0 else Count(rangeStart, rangeEnd, holidays, weeklyOffs)
  }

  /** Working days in the employed part of the period, less whole days of lost pay, never below zero. */
  function ComputePayableDays(periodStart: int, periodEnd: int, holidays: set<int>, weeklyOffs: set<int>, lopDays: int,
      employedFrom: Option<int>, employedTo: Option<int>): Days
  {
    var employed := EmployedDays(periodStart, periodEnd, holidays, weeklyOffs, employedFrom, employedTo);
    Days(Count(periodStart, periodEnd, holidays, weeklyOffs), Max(0, employed - lopDays))
  }

  /** Payable days lie between none and all the working days, whatever is lost and whenever somebody joined or left. */
  lemma PayableDaysInRange(periodStart: int, periodEnd: int, holidays: set<int>, weeklyOffs: set<int>, lopDays: int,
      employedFrom: Option<int>, employedTo: Option<int>)
    requires lopDays >= 0
    ensures var days :=
      ComputePayableDays(periodStart, periodEnd, holidays, weeklyOffs, lopDays, employedFrom, employedTo);
      0 <= days.payableDays <= days.workingDays
  {
    var rangeStart := if employedFrom.Some? && employedFrom.value > periodStart then employedFrom.value
      else periodStart;
    var rangeEnd := if employedTo.Some? && employedTo.value < periodEnd then employedTo.value else periodEnd;
    CountWithin(rangeStart, rangeEnd, periodStart, periodEnd, holidays, weeklyOffs);
  }

  /** When one employee leaves the day before another takes over, the two are paid for the whole period between them. */
  lemma HandoverPaysEveryDay(periodStart: int, periodEnd: int, holidays: set<int>, weeklyOffs: set<int>, handover: int)
    requires periodStart <= handover <= periodEnd
    ensures var leaver := ComputePayableDays(periodStart, periodEnd, holidays, weeklyOffs, 0, None, Some(handover - 1));
      var joiner := ComputePayableDays(periodStart, periodEnd, holidays, weeklyOffs, 0, Some(handover), None);
      leaver.payableDays + joiner.payableDays == leaver.workingDays == joiner.workingDays
  {
    CountSplits(periodStart, handover, periodEnd, holidays, weeklyOffs);
    if handover == periodStart {
      assert DaysBetween(periodStart, handover - 1, holidays, weeklyOffs) == {};
    }
  }

  // ---- Payable days are the days not lost ----

  /** The working days of the window that a request takes from the employee's pay. */
  function TakenDays(request: Request, id: string, start: int, end: int, holidays: set<int>,
      weeklyOffs: set<int>): set<int>
  {
    if request.employeeId == id && IsUnpaidLeave(request) && Overlaps(request, start, end)
    then DaysBetween(Max(request.startDate, start), Min(request.endDate, end - 1), holidays, weeklyOffs) else {}
  }

  /** The working days of the window on which the employee is on unpaid leave. */
  function LostDays(requests: seq<Request>, id: string, start: int, end: int, holidays: set<int>,
      weeklyOffs: set<int>): set<int>
  {
    if requests == [] then {}
    else LostDays(requests[..|requests| - 1], id, start, end, holidays, weeklyOffs)
         + TakenDays(requests[|requests| - 1], id, start, end, holidays, weeklyOffs)
  }

  /** No two of the requests take the same working day. */
  ghost predicate TakenOnce(requests: seq<Request>, id: string, start: int, end: int, holidays: set<int>,
      weeklyOffs: set<int>)
  {
    requests == [] ||
    (TakenOnce(requests[..|requests| - 1], id, start, end, holidays, weeklyOffs)
     && TakenDays(requests[|requests| - 1], id, start, end, holidays, weeklyOffs)
        !! LostDays(requests[..|requests| - 1], id, start, end, holidays, weeklyOffs))
  }

  lemma UnionSize(a: set<int>, b: set<int>)
    ensures |a + b| <= |a| + |b|
    ensures |a + b| == |a| + |b| <==> a !! b
  {
    assert a + b == a + (b - a) && a !! b - a;
    assert b == (b - a) + (a * b);
    if x :| x in a && x in b {
      assert x in a * b;
    }
  }

  /** Lost pay counts every day on unpaid leave, and more than that exactly when requests share a working day. */
  lemma {:induction false} LopCountsLostDays(requests: seq<Request>, id: string, start: int, end: int,
      holidays: set<int>, weeklyOffs: set<int>)
    ensures var lop, lost :=
      LopDays(requests, id, start, end, holidays, weeklyOffs), LostDays(requests, id, start, end, holidays, weeklyOffs);
      |lost| <= lop && (|lost| == lop <==> TakenOnce(requests, id, start, end, holidays, weeklyOffs))
  {
    if requests != [] {
      var rest, last := requests[..|requests| - 1], requests[|requests| - 1];
      LopCountsLostDays(rest, id, start, end, holidays, weeklyOffs);
      var taken := TakenDays(last, id, start, end, holidays, weeklyOffs);
      assert |taken| == if last.employeeId == id && IsUnpaidLeave(last)
        then ClippedDays(last, start, end, holidays, weeklyOffs) else 0;
      UnionSize(LostDays(rest, id, start, end, holidays, weeklyOffs), taken);
    }
  }

  /** The working days of the employed part of the period. */
  function EmployedWorkingDays(periodStart: int, periodEnd: int, holidays: set<int>, weeklyOffs: set<int>,
      employedFrom: Option<int>, employedTo: Option<int>): set<int>
  {
    set day | periodStart <= day <= periodEnd && IsWorkingDay(day, holidays, weeklyOffs)
              && (employedFrom.Some? ==> employedFrom.value <= day) && (employedTo.Some? ==> day <= employedTo.value)
  }

  lemma EmployedDaysAreSet(periodStart: int, periodEnd: int, holidays: set<int>, weeklyOffs: set<int>,
      employedFrom: Option<int>, employedTo: Option<int>)
    ensures EmployedDays(periodStart, periodEnd, holidays, weeklyOffs, employedFrom, employedTo)
            == |EmployedWorkingDays(periodStart, periodEnd, holidays, weeklyOffs, employedFrom, employedTo)|
  {
    var rangeStart := if employedFrom.Some? && employedFrom.value > periodStart then employedFrom.value
      else periodStart;
    var rangeEnd := if employedTo.Some? && employedTo.value < periodEnd then employedTo.value else periodEnd;
    assert EmployedWorkingDays(periodStart, periodEnd, holidays, weeklyOffs, employedFrom, employedTo)
        == DaysBetween(rangeStart, rangeEnd, holidays, weeklyOffs);
    if rangeStart > rangeEnd {
      assert DaysBetween(rangeStart, rangeEnd, holidays, weeklyOffs) == {};
    }
  }
}
