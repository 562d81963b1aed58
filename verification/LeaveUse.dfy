/**
 * The used days of an account against its requests, over any course of events: which days stay used although no
 * approved request accounts for them.
 */
module LeaveUse {
  import opened LeaveAccount
  import opened LeavePosting
  import opened LeaveRecalculation
  import opened LeaveRequests
  import opened Wrappers

  /** The requests, and one account. */
  datatype Desk = Desk(requests: Requests, account: Account)

  /** Something happens to a request, or something else to the account. */
  datatype Happening = Request(event: Event) | Elsewhere(after: Account)

  function UsedDays(a: Account): int {
    if a.row.Some? then a.row.value.used else 0
  }

  function After(desk: Desk, key: Key, h: Happening): Desk {
    match h
    case Request(event) =>
      Desk(RequestsAfter(desk.requests, event), AccountAfter(desk.requests, key, desk.account, event))
    case Elsewhere(account) => desk.(account := account)
  }

  function AfterAll(desk: Desk, key: Key, hs: seq<Happening>): Desk
    decreases |hs|
  {
    if hs == [] then desk else AfterAll(After(desk, key, hs[0]), key, hs[1..])
  }

  /** Credits, grants, reversals and adjustments leave used days alone and delete no row. */
  predicate KeepsUse(before: Account, after: Account) {
    UsedDays(after) == UsedDays(before) && (before.row.Some? ==> after.row.Some?)
  }

  /** A new request is pending, and asks for no negative number of days. */
  predicate Proper(desk: Desk, h: Happening) {
    match h
    case Request(event) =>
      event.Applied? ==> event.request.days >= 0 && (event.request.status.PendingL1? || event.request.status.PendingL2?)
    case Elsewhere(account) => KeepsUse(desk.account, account)
  }

  ghost predicate AllProper(desk: Desk, key: Key, hs: seq<Happening>)
    decreases |hs|
  {
    hs == [] || (Proper(desk, hs[0]) && AllProper(After(desk, key, hs[0]), key, hs[1..]))
  }

  // ---- The days of the approved requests ----

  /** The days off the account's balance that the request accounts for. */
  function Counted(q: LeaveRequest, key: Key): int {
    if q.key == key && q.status.Approved? && !q.isLop then q.days else 0
  }

  ghost function ApprovedDays(requests: Requests, key: Key): int
    decreases |requests|
  {
    if requests == map[] then 0
    else
      var id :| id in requests;
      Counted(requests[id], key) + ApprovedDays(requests - {id}, key)
  }

  lemma {:induction false} ApprovedWithout(requests: Requests, key: Key, id: string)
    requires id in requests
    ensures ApprovedDays(requests, key) == Counted(requests[id], key) + ApprovedDays(requests - {id}, key)
    decreases |requests|
  {
    hide Counted;
    var first :| first in requests &&
      ApprovedDays(requests, key) == Counted(requests[first], key) + ApprovedDays(requests - {first}, key);
    if first != id {
      ApprovedWithout(requests - {first}, key, id);
      ApprovedWithout(requests - {id}, key, first);
      assert requests - {first} - {id} == requests - {id} - {first};
    }
  }

  lemma ApprovedWith(requests: Requests, key: Key, id: string, q: LeaveRequest)
    ensures ApprovedDays(requests[id := q], key) == ApprovedDays(requests, key) + Counted(q, key)
      - if id in requests then Counted(requests[id], key) else 0
  {
    ApprovedWithout(requests[id := q], key, id);
    if id in requests {
      ApprovedWithout(requests, key, id);
      assert requests[id := q] - {id} == requests - {id};
    } else {
      assert requests[id := q] - {id} == requests;
    }
  }

  // ---- What rejections leave behind ----

  /** The days that rejecting an approved request leaves used. */
  function LeftUsed(desk: Desk, key: Key, h: Happening): int {
    if h.Request? && h.event.Rejection? && h.event.id in desk.requests then Counted(desk.requests[h.event.id], key)
    else 0
  }

  function AllLeftUsed(desk: Desk, key: Key, hs: seq<Happening>): int
    decreases |hs|
  {
    if hs == [] then 0 else LeftUsed(desk, key, hs[0]) + AllLeftUsed(After(desk, key, hs[0]), key, hs[1..])
  }

  /** No request asks for less than nothing, and approved days have gone through a row. */
  ghost predicate Kept(desk: Desk, key: Key) {
    forall id :: id in desk.requests ==>
      && desk.requests[id].days >= 0
      && (desk.requests[id].key == key && desk.requests[id].status.Approved? && !desk.requests[id].isLop ==>
            desk.account.row.Some?)
  }

  lemma HappeningKeeps(desk: Desk, key: Key, h: Happening)
    requires Kept(desk, key) && Proper(desk, h)
    ensures Kept(After(desk, key, h), key)
    ensures LeftUsed(desk, key, h) >= 0
  {
  }

  /** Used days and approved days go up and down together, but for what a rejection leaves. */
  lemma HappeningBalances(desk: Desk, key: Key, h: Happening)
    requires Kept(desk, key) && Proper(desk, h)
    ensures var after := After(desk, key, h);
      UsedDays(after.account) - ApprovedDays(after.requests, key) ==
        UsedDays(desk.account) - ApprovedDays(desk.requests, key) + LeftUsed(desk, key, h)
  {
    hide ApprovedDays;
    if h.Request? {
      var requests, event := desk.requests, h.event;
      if event.id in requests {
        ApprovedWith(requests, key, event.id, requests[event.id].(status := StatusAfter(requests[event.id], event)));
      } else if event.Applied? {
        ApprovedWith(requests, key, event.id, event.request);
      }
    }
  }

  /** Over any course of events. */
  lemma {:induction false} UseBalances(desk: Desk, key: Key, hs: seq<Happening>)
    requires Kept(desk, key) && AllProper(desk, key, hs)
    ensures var after := AfterAll(desk, key, hs);
      UsedDays(after.account) - ApprovedDays(after.requests, key) ==
        UsedDays(desk.account) - ApprovedDays(desk.requests, key) + AllLeftUsed(desk, key, hs)
    ensures AllLeftUsed(desk, key, hs) >= 0
    decreases |hs|
  {
    hide After;
    hide Kept;
    hide ApprovedDays;
    hide UsedDays;
    hide LeftUsed;
    if hs != [] {
      HappeningKeeps(desk, key, hs[0]);
      HappeningBalances(desk, key, hs[0]);
      UseBalances(After(desk, key, hs[0]), key, hs[1..]);
    }
  }

  /** No event rejects a request of the account that has been approved for days off its balance. */
  ghost predicate RejectsNoneApproved(desk: Desk, key: Key, hs: seq<Happening>)
    decreases |hs|
  {
    hs == [] ||
    (LeftUsed(desk, key, hs[0]) == 0 && RejectsNoneApproved(After(desk, key, hs[0]), key, hs[1..]))
  }

  lemma {:induction false} NothingLeftUsed(desk: Desk, key: Key, hs: seq<Happening>)
    requires Kept(desk, key) && AllProper(desk, key, hs)
    ensures AllLeftUsed(desk, key, hs) == 0 <==> RejectsNoneApproved(desk, key, hs)
    decreases |hs|
  {
    hide After;
    hide Kept;
    hide LeftUsed;
    if hs != [] {
      HappeningKeeps(desk, key, hs[0]);
      NothingLeftUsed(After(desk, key, hs[0]), key, hs[1..]);
      UseBalances(After(desk, key, hs[0]), key, hs[1..]);
    }
  }

  /**
   * An account whose used days are those of its approved requests still is one after any course of events exactly when
   * none of them rejects a request that had been approved for days off the balance.
   */
  lemma UsedDaysAreApproved(desk: Desk, key: Key, hs: seq<Happening>)
    requires Kept(desk, key) && AllProper(desk, key, hs)
    requires UsedDays(desk.account) == ApprovedDays(desk.requests, key)
    ensures var after := AfterAll(desk, key, hs);
      UsedDays(after.account) == ApprovedDays(after.requests, key) <==> RejectsNoneApproved(desk, key, hs)
  {
    UseBalances(desk, key, hs);
    NothingLeftUsed(desk, key, hs);
  }

  /** Runs of the engine, recalculations, and all postings of accrued days are such other things. */
  lemma OtherPostingsKeepUse(key: Key, a: Account, t: Terms, today: int, starts: seq<int>, delta: int, source: Source)
    requires t.Valid()
    ensures KeepsUse(a, Run(key, t, today, a))
    ensures KeepsUse(a, Reverse(key, t.frequency, t.window, a, starts))
    ensures KeepsUse(a, Recalculate(key, t, today, a, starts))
    ensures KeepsUse(a, PostAccrued(key, a, delta, source, today))
  {
    hide Owed;
    hide CreditEntries;
    hide Reversals;
    hide SumOfNets;
  }

  lemma TwoHappenings(desk: Desk, key: Key, first: Happening, second: Happening, more: seq<Happening>)
    ensures var next := After(After(desk, key, first), key, second);
      && AfterAll(desk, key, [first, second] + more) == AfterAll(next, key, more)
      && (AllProper(desk, key, [first, second] + more) <==>
          Proper(desk, first) && Proper(After(desk, key, first), second) && AllProper(next, key, more))
  {
    hide After;
    hide Proper;
    assert ([first, second] + more)[1..] == [second] + more && ([second] + more)[1..] == more;
  }

  /** Days approved, rejected and cancelled again stay used, and nobody is on leave for them. */
  lemma RejectedDaysStayUsed(key: Key, days: nat, now: int)
    requires days > 0
    ensures var q := LeaveRequest(key, days, false, None, PendingL2);
      var hs := [Request(Applied("r", q)), Request(Approval("r", false, false, true, now)), Request(Rejection("r")),
                 Request(Cancellation("r", now))];
      var desk := Desk(map[], Account(None, []));
      && Kept(desk, key) && AllProper(desk, key, hs)
      && UsedDays(desk.account) == 0 == ApprovedDays(desk.requests, key)
      && UsedDays(AfterAll(desk, key, hs).account) == days
      && ApprovedDays(AfterAll(desk, key, hs).requests, key) == 0
  {
    var q := LeaveRequest(key, days, false, None, PendingL2);
    var applied, approved, rejected, cancelled := Request(Applied("r", q)),
      Request(Approval("r", false, false, true, now)), Request(Rejection("r")), Request(Cancellation("r", now));
    var desk := Desk(map[], Account(None, []));
    var used := AfterApproval(desk.account, q, false, now);
    assert After(desk, key, applied) == Desk(map["r" := q], desk.account);
    assert After(Desk(map["r" := q], desk.account), key, approved) == Desk(map["r" := q.(status := Approved)], used);
    assert After(Desk(map["r" := q.(status := Approved)], used), key, rejected) ==
      Desk(map["r" := q.(status := Rejected)], used);
    assert After(Desk(map["r" := q.(status := Rejected)], used), key, cancelled) ==
      Desk(map["r" := q.(status := Cancelled)], used);
    var hs := [applied, approved, rejected, cancelled];
    assert hs == [applied, approved] + [rejected, cancelled] && [rejected, cancelled] + [] == [rejected, cancelled];
    TwoHappenings(desk, key, applied, approved, [rejected, cancelled]);
    TwoHappenings(Desk(map["r" := q.(status := Approved)], used), key, rejected, cancelled, []);
    hide After;
    ApprovedWithout(map["r" := q.(status := Cancelled)], key, "r");
    assert map["r" := q.(status := Cancelled)] - {"r"} == map[];
  }
}
