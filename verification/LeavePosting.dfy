/**
 * Single postings to a leave account: approvals, cancellations, event grants, HR adjustments and
 * comp-off credits. Each changes the balance row by an upsert and appends one ledger entry.
 */
module LeavePosting {
  import opened Integers
  import opened LeaveAccount
  import opened Wrappers

  /** The upsert of accrued days: a new row never starts below zero. */
  function UpsertAccrued(row: Option<Balance>, delta: int): Balance {
    if row.None? then Balance(Max(delta, 0), 0) else Balance(row.value.accrued + delta, row.value.used)
  }

  /** The upsert of used days: a new row never starts below zero. */
  function UpsertUsed(row: Option<Balance>, delta: int): Balance {
    if row.None? then Balance(0, Max(delta, 0)) else Balance(row.value.accrued, row.value.used + delta)
  }

  function PostAccrued(key: Key, a: Account, delta: int, source: Source, at: int): Account {
    var row := Some(UpsertAccrued(a.row, delta));
    Account(row, a.entries + [Entry(key, delta, Available(row), source, at)])
  }

  /** Used days go up, available days go down. */
  function PostUsed(key: Key, a: Account, delta: int, source: Source, at: int): Account {
    var row := Some(UpsertUsed(a.row, delta));
    Account(row, a.entries + [Entry(key, -delta, Available(row), source, at)])
  }

  /** The ledger keeps agreeing with the balance exactly when no days are taken from a missing row. */
  lemma AccruedPostingReconciles(key: Key, a: Account, delta: int, source: Source, at: int)
    requires Reconciled(a)
    ensures Reconciled(PostAccrued(key, a, delta, source, at)) <==> a.row.Some? || delta >= 0
  {
    var b := PostAccrued(key, a, delta, source, at);
    PostKeepsReconciled(a, b.row, b.entries[|a.entries|]);
  }

  /** Likewise for used days: a negative change needs a row. */
  lemma UsedPostingReconciles(key: Key, a: Account, delta: int, source: Source, at: int)
    requires Reconciled(a)
    ensures Reconciled(PostUsed(key, a, delta, source, at)) <==> a.row.Some? || delta >= 0
  {
    var b := PostUsed(key, a, delta, source, at);
    PostKeepsReconciled(a, b.row, b.entries[|a.entries|]);
  }

  // ---- Requests ----

  datatype RequestStatus = PendingL1 | PendingL2 | Approved | Rejected | Cancelled

  datatype LeaveRequest = LeaveRequest(
    key: Key, days: int, isLop: bool, eventDate: Option<int>, status: RequestStatus)

  /** The account after the final approval of a request; `onEvent` is how its leave type grants days. */
  function AfterApproval(a: Account, r: LeaveRequest, onEvent: bool, now: int): Account {
    var granted := if onEvent then PostAccrued(r.key, a, r.days, EventGrant, now) else a;
    if r.isLop then granted else PostUsed(r.key, granted, r.days, RequestApproved, now)
  }

  /** The account after cancelling an approved request; only event requests carry an event date. */
  function AfterCancellation(a: Account, r: LeaveRequest, now: int): Account {
    var returned := if r.isLop then a else PostUsed(r.key, a, -r.days, RequestCancelled, now);
    if r.eventDate.Some? then PostAccrued(r.key, returned, -r.days, EventGrant, now) else returned
  }

  /** An event request is one whose type grants per event; the service sets the event date on exactly those. */
  predicate EventConsistent(r: LeaveRequest, onEvent: bool) {
    onEvent <==> r.eventDate.Some?
  }

  lemma ApprovalReconciles(a: Account, r: LeaveRequest, onEvent: bool, now: int)
    requires Reconciled(a) && r.days >= 0
    ensures Reconciled(AfterApproval(a, r, onEvent, now))
  {
    var granted := if onEvent then PostAccrued(r.key, a, r.days, EventGrant, now) else a;
    AccruedPostingReconciles(r.key, a, r.days, EventGrant, now);
    UsedPostingReconciles(r.key, granted, r.days, RequestApproved, now);
  }

  lemma CancellationReconciles(a: Account, r: LeaveRequest, now: int)
    requires Reconciled(a) && a.row.Some?
    ensures Reconciled(AfterCancellation(a, r, now))
  {
    var returned := if r.isLop then a else PostUsed(r.key, a, -r.days, RequestCancelled, now);
    UsedPostingReconciles(r.key, a, -r.days, RequestCancelled, now);
    AccruedPostingReconciles(r.key, returned, -r.days, EventGrant, now);
  }

  /**
   * Approving and then cancelling restores the balance row exactly when the request is consistent
   * with its type (or asks for no days): what one of them granted, the other takes back.
   */
  lemma ApproveThenCancel(a: Account, r: LeaveRequest, onEvent: bool, approvedAt: int, cancelledAt: int)
    requires a.row.Some?
    ensures AfterCancellation(AfterApproval(a, r, onEvent, approvedAt), r, cancelledAt).row == a.row
            <==> r.days == 0 || EventConsistent(r, onEvent)
  {
  }

  /** The first request of an account: cancelling it leaves an empty balance row behind. */
  lemma ApproveThenCancelFirst(a: Account, r: LeaveRequest, onEvent: bool, approvedAt: int, cancelledAt: int)
    requires a.row.None? && r.days >= 0 && EventConsistent(r, onEvent) && (onEvent || !r.isLop)
    ensures AfterCancellation(AfterApproval(a, r, onEvent, approvedAt), r, cancelledAt).row == Some(Balance(0, 0))
  {
  }
}
