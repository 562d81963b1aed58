/**
 * What a payroll run takes off for loss of pay: the finalised absences of the attendance records and the working days
 * on approved unpaid leave, each counted without looking at the other.
 */
module LossOfPay {
  import opened WorkingDays
  import opened Wrappers

  datatype AttendanceStatus = Present | Late | OnLeave | WeeklyOff | Holiday | Absent | PendingRegularization

  /** At most one record for each employee and day. */
  type Attendance = map<(string, int), AttendanceStatus>

  predicate IsAbsent(attendance: Attendance, id: string, day: int) {
    (id, day) in attendance && attendance[(id, day)].Absent?
  }

  /** The days from `start` up to but not including `end` on which the employee is recorded absent. */
  function AbsentDays(attendance: Attendance, id: string, start: int, end: int): set<int> {
    set day | start <= day < end && IsAbsent(attendance, id, day)
  }

  /** Everybody with an absence in the window, and how many. */
  function AbsentRows(attendance: Attendance, start: int, end: int): map<string, nat> {
    map key | key in attendance && start <= key.1 < end && attendance[key].Absent? ::
      key.0 := |AbsentDays(attendance, key.0, start, end)|
  }

  lemma AbsentRowsCount(attendance: Attendance, id: string, start: int, end: int)
    ensures DaysOf(AbsentRows(attendance, start, end), id) == |AbsentDays(attendance, id, start, end)|
  {
    var rows := AbsentRows(attendance, start, end);
    if day :| day in AbsentDays(attendance, id, start, end) {
      assert (id, day) in attendance;
      assert id in rows;
    } else {
      assert AbsentDays(attendance, id, start, end) == {};
    }
  }

  /** The days a payroll run takes off: absences and unpaid leave, added up. */
  function LopInPeriod(attendance: Attendance, requests: seq<Request>, id: string, start: int, end: int,
      holidays: set<int>, weeklyOffs: set<int>): nat
  {
    |AbsentDays(attendance, id, start, end)| + LopDays(requests, id, start, end, holidays, weeklyOffs)
  }

  /** Consecutive stretches take off what the whole of them does: no day is counted in two of them or in none. */
  lemma StretchesAddUp(attendance: Attendance, requests: seq<Request>, id: string, start: int, cut: int, end: int,
      holidays: set<int>, weeklyOffs: set<int>)
    requires start <= cut <= end
    ensures LopInPeriod(attendance, requests, id, start, end, holidays, weeklyOffs) ==
      LopInPeriod(attendance, requests, id, start, cut, holidays, weeklyOffs) +
      LopInPeriod(attendance, requests, id, cut, end, holidays, weeklyOffs)
  {
    var before, after := AbsentDays(attendance, id, start, cut), AbsentDays(attendance, id, cut, end);
    assert before !! after && AbsentDays(attendance, id, start, end) == before + after;
    var boundaries := [start, cut, end];
    BatchesAddUp(requests, id, boundaries, holidays, weeklyOffs);
    assert boundaries[..2] == [start, cut] && boundaries[..2][..1] == [start];
    assert LopTotal(requests, id, [start], holidays, weeklyOffs) == 0;
    hide LopDays;
  }

  /** One day takes off one for its absence record, and one for each approved unpaid request over it if it is worked. */
  lemma OneDayOff(attendance: Attendance, request: Request, day: int, holidays: set<int>, weeklyOffs: set<int>)
    requires IsUnpaidLeave(request) && request.startDate <= day <= request.endDate
    ensures var id := request.employeeId;
      LopInPeriod(attendance, [request], id, day, day + 1, holidays, weeklyOffs) ==
      (if (id, day) in attendance && attendance[(id, day)] == Absent then 1 else 0) +
      (if day !in holidays && Weekday(day) !in weeklyOffs then 1 else 0)
  {
    var id := request.employeeId;
    assert AbsentDays(attendance, id, day, day + 1) == if IsAbsent(attendance, id, day) then {day} else {};
    assert [request][..0] == [];
    assert LopDays([request], id, day, day + 1, holidays, weeklyOffs) ==
      LopDays([], id, day, day + 1, holidays, weeklyOffs) +
      ClippedDays(request, day, day + 1, holidays, weeklyOffs);
    assert DaysBetween(day, day, holidays, weeklyOffs) == if IsWorkingDay(day, holidays, weeklyOffs) then {day} else {};
  }

  method GetLopDaysBatch(attendance: Attendance, requests: seq<Request>, start: int, end: int, holidays: set<int>,
      weeklyOffs: set<int>)
    returns (result: map<string, nat>)
    ensures forall id :: DaysOf(result, id) == LopInPeriod(attendance, requests, id, start, end, holidays, weeklyOffs)
  {
    result := AbsentRows(attendance, start, end);
    var leaveLop := GetApprovedLopDaysBatch(requests, start, end, holidays, weeklyOffs);
    forall id
      ensures DaysOf(result, id) == |AbsentDays(attendance, id, start, end)|
    {
      AbsentRowsCount(attendance, id, start, end);
    }
    var rest := leaveLop.Keys;
    while rest != {}
      invariant rest <= leaveLop.Keys
      invariant forall id :: id in rest ==> DaysOf(result, id) == |AbsentDays(attendance, id, start, end)|
      invariant forall id :: id !in rest ==>
        DaysOf(result, id) == |AbsentDays(attendance, id, start, end)| + DaysOf(leaveLop, id)
    {
      var id :| id in rest;
      result := result[id := DaysOf(result, id) + leaveLop[id]];
      rest := rest - {id};
    }
  }

  // ---- Pay is for the days not lost ----

  function EffectiveWeeklyOffs(companyOffs: set<int>, override: set<int>): set<int> {
    if override != {} then override else companyOffs
  }

  lemma SizeOfRest(all: set<int>, away: set<int>)
    ensures |all| == |all - away| + |away| - |away - all|
  {
    assert all == (all - away) + (all * away);
    assert away == (away - all) + (all * away);
  }

  lemma NothingLeft(a: set<int>, b: set<int>)
    ensures |a - b| == 0 <==> a <= b
  {
    if a - b == {} {
      forall x | x in a
        ensures x in b
      {
        assert x !in a - b;
      }
    }
  }

  /**
   * An employee is paid for at most the employed working days without absence and unpaid leave: for exactly those if
   * nothing is left of them anyway, or if each day off the pay is counted once and is one of the employed working
   * days; otherwise for fewer.
   */
  lemma PaidForDaysNotLost(attendance: Attendance, requests: seq<Request>, id: string, start: int, end: int,
      holidays: set<int>, companyOffs: set<int>, override: set<int>, employedFrom: Option<int>,
      employedTo: Option<int>)
    ensures var offs := EffectiveWeeklyOffs(companyOffs, override);
      var employed := EmployedWorkingDays(start, end - 1, holidays, offs, employedFrom, employedTo);
      var absent := AbsentDays(attendance, id, start, end);
      var lost := LostDays(requests, id, start, end, holidays, companyOffs);
      var lop := LopInPeriod(attendance, requests, id, start, end, holidays, companyOffs);
      var payable := ComputePayableDays(start, end - 1, holidays, offs, lop, employedFrom, employedTo).payableDays;
      && payable <= |employed - (absent + lost)|
      && (payable == |employed - (absent + lost)| <==>
          || employed <= absent + lost
          || (TakenOnce(requests, id, start, end, holidays, companyOffs) && absent !! lost &&
              absent + lost <= employed))
  {
    var offs := EffectiveWeeklyOffs(companyOffs, override);
    var employed := EmployedWorkingDays(start, end - 1, holidays, offs, employedFrom, employedTo);
    var absent := AbsentDays(attendance, id, start, end);
    var lost := LostDays(requests, id, start, end, holidays, companyOffs);
    EmployedDaysAreSet(start, end - 1, holidays, offs, employedFrom, employedTo);
    LopCountsLostDays(requests, id, start, end, holidays, companyOffs);
    hide EffectiveWeeklyOffs;
    hide AbsentDays;
    hide LopDays;
    hide LostDays;
    hide TakenOnce;
    hide EmployedDays;
    hide EmployedWorkingDays;
    UnionSize(absent, lost);
    SizeOfRest(employed, absent + lost);
    NothingLeft(absent + lost, employed);
    NothingLeft(employed, absent + lost);
  }

  /** A Monday recorded absent before its unpaid leave was approved is lost twice, with one request alone. */
  lemma AbsentMondayIsLostTwice()
    ensures var monday := 4;
      var attendance: Attendance, requests := map[("e", monday) := Absent], [Request("e", true, true, monday, monday)];
      var lop := LopInPeriod(attendance, requests, "e", monday, monday + 7, {}, {0, 6});
      && TakenOnce(requests, "e", monday, monday + 7, {}, {0, 6}) && lop == 2
      && AbsentDays(attendance, "e", monday, monday + 7) + LostDays(requests, "e", monday, monday + 7, {}, {0, 6})
         == {monday}
      && ComputePayableDays(monday, monday + 6, {}, {0, 6}, lop, None, None) == Days(5, 3)
  {
    var attendance: Attendance, request := map[("e", 4) := Absent], Request("e", true, true, 4, 4);
    assert [request][..0] == [];
    assert AbsentDays(attendance, "e", 4, 11) == {4};
    assert DaysBetween(4, 4, {}, {0, 6}) == {4};
    assert DaysBetween(4, 10, {}, {0, 6}) == {4, 5, 6, 7, 8};
  }

  /** So is a Monday that two approved requests share: of four days worked that week three are paid. */
  lemma MondayIsLostTwice()
    ensures var monday := 4;
      var requests := [Request("e", true, true, monday, monday), Request("e", true, true, monday, monday)];
      var lop := LopInPeriod(map[], requests, "e", monday, monday + 7, {}, {0, 6});
      && LostDays(requests, "e", monday, monday + 7, {}, {0, 6}) == {monday} && lop == 2
      && ComputePayableDays(monday, monday + 6, {}, {0, 6}, lop, None, None) == Days(5, 3)
  {
    var request := Request("e", true, true, 4, 4);
    var requests := [request, request];
    assert requests[..1] == [request] && [request][..0] == [];
    assert AbsentDays(map[], "e", 4, 11) == {};
    assert DaysBetween(4, 4, {}, {0, 6}) == {4};
    assert DaysBetween(4, 10, {}, {0, 6}) == {4, 5, 6, 7, 8};
    assert LopDays([request], "e", 4, 11, {}, {0, 6}) == 1 && LostDays([request], "e", 4, 11, {}, {0, 6}) == {4};
  }

  // ---- What a leave request does to the attendance records ----

  /** The employee's keys for the working days from `start` to `end`, both included. */
  function WorkingKeys(id: string, start: int, end: int, holidays: set<int>, weeklyOffs: set<int>): set<(string, int)> {
    set day | day in DaysBetween(start, end, holidays, weeklyOffs) :: (id, day)
  }

  /** An approved request marks the working days that have no record; a cancelled one deletes such marks again. */
  function Synced(attendance: Attendance, id: string, start: int, end: int, holidays: set<int>, weeklyOffs: set<int>,
      markOnLeave: bool): Attendance
  {
    var keys := WorkingKeys(id, start, end, holidays, weeklyOffs);
    if markOnLeave then attendance + map key | key in keys - attendance.Keys :: OnLeave
    else attendance - set key | key in keys && key in attendance && attendance[key].OnLeave?
  }

  lemma NothingToSync(before: Attendance, id: string, start: int, holidays: set<int>, weeklyOffs: set<int>,
      markOnLeave: bool)
    ensures Synced(before, id, start, start - 1, holidays, weeklyOffs, markOnLeave) == before
  {
    assert WorkingKeys(id, start, start - 1, holidays, weeklyOffs) == {};
  }

  lemma SameSync(before: Attendance, id: string, start: int, last: int, end: int, holidays: set<int>,
      weeklyOffs: set<int>, markOnLeave: bool)
    requires last == end || (last == start - 1 && end < start)
    ensures Synced(before, id, start, last, holidays, weeklyOffs, markOnLeave) ==
      Synced(before, id, start, end, holidays, weeklyOffs, markOnLeave)
  {
    assert DaysBetween(start, last, holidays, weeklyOffs) == DaysBetween(start, end, holidays, weeklyOffs);
  }

  lemma SyncOneMore(before: Attendance, id: string, start: int, day: int, holidays: set<int>, weeklyOffs: set<int>,
      markOnLeave: bool)
    requires start <= day
    ensures var soFar := Synced(before, id, start, day - 1, holidays, weeklyOffs, markOnLeave);
      Synced(before, id, start, day, holidays, weeklyOffs, markOnLeave) ==
      if !IsWorkingDay(day, holidays, weeklyOffs) then soFar
      else if markOnLeave then if (id, day) in soFar then soFar else soFar[(id, day) := OnLeave]
      else if (id, day) in soFar && soFar[(id, day)].OnLeave? then soFar - {(id, day)} else soFar
  {
    var keys := WorkingKeys(id, start, day - 1, holidays, weeklyOffs);
    assert WorkingKeys(id, start, day, holidays, weeklyOffs) ==
      keys + if IsWorkingDay(day, holidays, weeklyOffs) then {(id, day)} else {};
    assert (id, day) !in keys;
    hide WorkingKeys;
  }

  method SyncAttendanceForLeave(before: Attendance, id: string, start: int, end: int, holidays: set<int>,
      weeklyOffs: set<int>, markOnLeave: bool)
    returns (attendance: Attendance)
    ensures attendance == Synced(before, id, start, end, holidays, weeklyOffs, markOnLeave)
  {
    attendance := before;
    var cur := start;
    hide Synced;
    NothingToSync(before, id, start, holidays, weeklyOffs, markOnLeave);
    while cur <= end
      invariant start <= cur && (cur <= end + 1 || cur == start)
      invariant attendance == Synced(before, id, start, cur - 1, holidays, weeklyOffs, markOnLeave)
    {
      SyncOneMore(before, id, start, cur, holidays, weeklyOffs, markOnLeave);
      if cur !in holidays && Weekday(cur) !in weeklyOffs {
        if markOnLeave {
          if (id, cur) !in attendance {
            attendance := attendance[(id, cur) := OnLeave];
          }
        } else if (id, cur) in attendance && attendance[(id, cur)].OnLeave? {
          attendance := attendance - {(id, cur)};
        }
      }
      cur := cur + 1;
    }
    SameSync(before, id, start, cur - 1, end, holidays, weeklyOffs, markOnLeave);
  }

  /**
   * Neither approving nor cancelling changes anybody's absences; what approving does is to leave no working day of the
   * request without a record.
   */
  lemma SyncForgivesNoAbsence(attendance: Attendance, id: string, start: int, end: int, holidays: set<int>,
      weeklyOffs: set<int>, markOnLeave: bool)
    ensures var after := Synced(attendance, id, start, end, holidays, weeklyOffs, markOnLeave);
      && (forall other, from, to :: AbsentDays(after, other, from, to) == AbsentDays(attendance, other, from, to))
      && (markOnLeave ==> WorkingKeys(id, start, end, holidays, weeklyOffs) <= after.Keys)
  {
    var after := Synced(attendance, id, start, end, holidays, weeklyOffs, markOnLeave);
    forall other, from, to
      ensures AbsentDays(after, other, from, to) == AbsentDays(attendance, other, from, to)
    {
      assert forall day :: IsAbsent(after, other, day) <==> IsAbsent(attendance, other, day);
    }
  }

  // ---- Two sets of weekly offs ----

  /**
   * Unpaid leave is counted with the company's weekly offs, payable days with the employee's own. So unpaid leave all
   * through the period leaves nothing payable exactly when the employee works no more days than the company does and
   * absences add.
   */
  lemma WholePeriodUnpaid(attendance: Attendance, request: Request, start: int, end: int, holidays: set<int>,
      companyOffs: set<int>, override: set<int>)
    requires request.approved && request.isLop && request.startDate <= start < end && end - 1 <= request.endDate
    ensures var id, offs := request.employeeId, EffectiveWeeklyOffs(companyOffs, override);
      var absent := AbsentDays(attendance, id, start, end);
      var lop := LopInPeriod(attendance, [request], id, start, end, holidays, companyOffs);
      var payable := ComputePayableDays(start, end - 1, holidays, offs, lop, None, None).payableDays;
      && (payable == 0 <==>
          Count(start, end - 1, holidays, offs) <= Count(start, end - 1, holidays, companyOffs) + |absent|)
      && (override == {} ==> payable == 0)
  {
    assert [request][..0] == [];
    assert LopDays([request], request.employeeId, start, end, holidays, companyOffs) ==
      LopDays([], request.employeeId, start, end, holidays, companyOffs) +
      ClippedDays(request, start, end, holidays, companyOffs);
    hide LopDays;
    hide AbsentDays;
    hide Count;
  }

  /** A company off on Saturdays pays an employee who works them, never absent, for one of a week's unpaid leave. */
  lemma SaturdayIsPaid()
    ensures var monday := 4;
      var week := Request("e", true, true, monday, monday + 6);
      var lop := LopInPeriod(map[], [week], "e", monday, monday + 7, {}, {0, 6});
      ComputePayableDays(monday, monday + 6, {}, EffectiveWeeklyOffs({0, 6}, {0}), lop, None, None) == Days(6, 1)
  {
    var week := Request("e", true, true, 4, 10);
    assert [week][..0] == [] && AbsentDays(map[], "e", 4, 11) == {};
    assert DaysBetween(4, 10, {}, {0, 6}) == {4, 5, 6, 7, 8};
    assert DaysBetween(4, 10, {}, {0}) == {4, 5, 6, 7, 8, 9};
  }
}
