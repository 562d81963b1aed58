/** Leave requests over the tables: applying, approving at one or two levels, rejecting, cancelling. */
module LeaveRequests {
  import opened LeaveAccount
  import opened LeaveBooks
  import opened LeavePosting
  import opened Wrappers

  datatype RequestError = NotFound | NotPending | DocumentMissing | LopNotAllowed

  function OnEvent(books: Books, key: Key): bool {
    TypeAt(books.types, key.leaveTypeId).Some? && TypeAt(books.types, key.leaveTypeId).value.onEvent
  }

  /** Every request carries an event date exactly when its type grants per event, and is then never unpaid. */
  ghost predicate ConsistentRequests(books: Books)
    reads books`requests
  {
    forall id :: id in books.requests ==>
      EventConsistent(books.requests[id], OnEvent(books, books.requests[id].key))
      && (books.requests[id].eventDate.Some? ==> !books.requests[id].isLop)
  }

  /** Days beyond the available balance are loss of pay; half days and event leave never are. */
  ghost predicate BeyondBalance(books: Books, key: Key, days: nat, halfDay: bool)
    reads books
  {
    !OnEvent(books, key) && !halfDay && days > Available(books.View(key).row)
  }

  // ---- What the operations make of the requests and of one account ----

  type Requests = map<string, LeaveRequest>

  /** `onEvent` is how the request's leave type grants days. */
  datatype Event = Applied(id: string, request: LeaveRequest)
                 | Approval(id: string, managerIsFinal: bool, onEvent: bool, hasDocument: bool, now: int)
                 | Rejection(id: string)
                 | Cancellation(id: string, now: int)

  /** Only a pending request can be approved, and finally only with the document its type asks for. */
  function ApproveOutcome(q: LeaveRequest, managerIsFinal: bool, onEvent: bool,
      hasDocument: bool): Result<(), RequestError>
  {
    if !q.status.PendingL1? && !q.status.PendingL2? then Err(NotPending)
    else if (q.status.PendingL2? || managerIsFinal) && onEvent && !hasDocument then Err(DocumentMissing)
    else Ok(())
  }

  /** The approval is accepted, and there is no further one to come. */
  predicate FinallyApproves(q: LeaveRequest, event: Event) {
    && event.Approval? && (q.status.PendingL2? || event.managerIsFinal)
    && ApproveOutcome(q, event.managerIsFinal, event.onEvent, event.hasDocument).Ok?
  }

  function StatusAfter(q: LeaveRequest, event: Event): RequestStatus {
    match event
    case Applied(_, _) => q.status
    case Approval(_, managerIsFinal, onEvent, hasDocument, _) =>
      if ApproveOutcome(q, managerIsFinal, onEvent, hasDocument).Err? then q.status
      else if FinallyApproves(q, event) then Approved else PendingL2
    case Rejection(_) => Rejected
    case Cancellation(_, _) => Cancelled
  }

  function RequestsAfter(requests: Requests, event: Event): Requests {
    if event.id in requests then
      requests[event.id := requests[event.id].(status := StatusAfter(requests[event.id], event))]
    else if event.Applied? then requests[event.id := event.request] else requests
  }

  /** Final approvals post to the account of their request, and cancelling an approved request takes that back. */
  function AccountAfter(requests: Requests, key: Key, a: Account, event: Event): Account {
    if event.id !in requests || requests[event.id].key != key then a
    else
      var q := requests[event.id];
      if FinallyApproves(q, event) then AfterApproval(a, q, event.onEvent, event.now)
      else if event.Cancellation? && q.status.Approved? then AfterCancellation(a, q, event.now)
      else a
  }

  lemma ApprovalIsEvent(requests: Requests, id: string, managerIsFinal: bool, onEvent: bool, hasDocument: bool,
      now: int)
    requires id in requests
    ensures var q, event := requests[id], Approval(id, managerIsFinal, onEvent, hasDocument, now);
            var accepted := ApproveOutcome(q, managerIsFinal, onEvent, hasDocument).Ok?;
            var final := accepted && (q.status.PendingL2? || managerIsFinal);
            && RequestsAfter(requests, event) == (if accepted then
                 requests[id := q.(status := if final then Approved else PendingL2)] else requests)
            && forall key: Key, a: Account :: AccountAfter(requests, key, a, event) ==
                 if final && key == q.key then AfterApproval(a, q, onEvent, now) else a
  {
  }

  // ---- The operations ----

  method Apply(books: Books, id: string, key: Key, days: nat, halfDay: bool, eventDate: int, allowLop: bool,
      managerDecides: bool) returns (r: Result<(), RequestError>)
    requires books.Valid() && ConsistentRequests(books) && id !in books.requests
    modifies books`requests
    ensures books.Valid() && ConsistentRequests(books)
    ensures r == if TypeAt(books.types, key.leaveTypeId).None? then Err(NotFound)
      else if old(BeyondBalance(books, key, days, halfDay)) && !allowLop then Err(LopNotAllowed) else Ok(())
    ensures r.Ok? ==> books.requests == old(books.requests)[id := LeaveRequest(key, days,
      old(BeyondBalance(books, key, days, halfDay)), if OnEvent(books, key) then Some(eventDate) else None,
      if managerDecides then PendingL1 else PendingL2)]
    ensures r.Ok? ==> books.requests == RequestsAfter(old(books.requests), Applied(id, books.requests[id]))
    ensures r.Err? ==> books.requests == old(books.requests)
  {
    var t := TypeAt(books.types, key.leaveTypeId);
    if t.None? {
      return Err(NotFound);
    }
    var isLop := false;
    var event := None;
    if t.value.onEvent {
      event := Some(eventDate);
    } else {
      var available := if key in books.balances then books.balances[key].accrued - books.balances[key].used else 0;
      isLop := !halfDay && days > available;
    }
    if isLop && !allowLop {
      return Err(LopNotAllowed);
    }
    var q := LeaveRequest(key, days, isLop, event, if managerDecides then PendingL1 else PendingL2);
    books.requests := books.requests[id := q];
    return Ok(());
  }

  /**
   * First-level approval hands over to HR, unless the manager's decision is final. `hasDocument` also holds when the
   * leave type asks for none.
   */
  method Approve(books: Books, id: string, managerIsFinal: bool, hasDocument: bool, now: int)
    returns (r: Result<(), RequestError>)
    requires books.Valid() && ConsistentRequests(books)
    modifies books`requests, books`balances, books`ledger
    ensures books.Valid() && ConsistentRequests(books)
    ensures r == if id !in old(books.requests) then Err(NotFound)
      else ApproveOutcome(old(books.requests[id]), managerIsFinal, OnEvent(books, old(books.requests[id]).key),
        hasDocument)
    ensures r.Ok? ==>
              var q := old(books.requests[id]);
              && (q.status.PendingL1? && !managerIsFinal ==>
                    && books.requests == old(books.requests)[id := q.(status := PendingL2)]
                    && forall key :: books.View(key) == old(books.View(key)))
              && (q.status.PendingL2? || managerIsFinal ==>
                    && books.requests == old(books.requests)[id := q.(status := Approved)]
                    && books.View(q.key) == AfterApproval(old(books.View(q.key)), q, OnEvent(books, q.key), now)
                    && forall key :: key != q.key ==> books.View(key) == old(books.View(key)))
    ensures r.Err? ==> books.requests == old(books.requests) && forall key :: books.View(key) == old(books.View(key))
    ensures id in old(books.requests) ==>
              var event := Approval(id, managerIsFinal, OnEvent(books, old(books.requests[id]).key), hasDocument, now);
              && books.requests == RequestsAfter(old(books.requests), event)
              && forall key :: books.View(key) == AccountAfter(old(books.requests), key, old(books.View(key)), event)
  {
    hide SoundAccount;
    hide RequestsAfter;
    hide AccountAfter;
    if id !in books.requests {
      return Err(NotFound);
    }
    var q := books.requests[id];
    ApprovalIsEvent(books.requests, id, managerIsFinal, OnEvent(books, q.key), hasDocument, now);
    if !q.status.PendingL1? && !q.status.PendingL2? {
      return Err(NotPending);
    }
    if q.status.PendingL1? && !managerIsFinal {
      books.requests := books.requests[id := q.(status := PendingL2)];
      return Ok(());
    }
    var onEvent := OnEvent(books, q.key);
    if onEvent && !hasDocument {
      return Err(DocumentMissing);
    }
    if onEvent {
      books.AdjustAccruedDays(q.key, q.days, EventGrant, now);
    }
    if !q.isLop {
      books.AdjustUsedDays(q.key, q.days, RequestApproved, now);
    }
    books.requests := books.requests[id := q.(status := Approved)];
    return Ok(());
  }

  /** Rejection does not look at the status: an approved request keeps its postings. */
  method Reject(books: Books, id: string) returns (r: Result<(), RequestError>)
    requires books.Valid() && ConsistentRequests(books)
    modifies books`requests
    ensures books.Valid() && ConsistentRequests(books)
    ensures r.Ok? <==> id in old(books.requests)
    ensures r.Ok? ==> books.requests == old(books.requests)[id := old(books.requests[id]).(status := Rejected)]
    ensures r.Err? ==> books.requests == old(books.requests)
    ensures books.requests == RequestsAfter(old(books.requests), Rejection(id))
  {
    if id !in books.requests {
      return Err(NotFound);
    }
    books.requests := books.requests[id := books.requests[id].(status := Rejected)];
    return Ok(());
  }

  /** Cancelling takes back what an approval posted, and only then. */
  method Cancel(books: Books, id: string, now: int) returns (r: Result<(), RequestError>)
    requires books.Valid() && ConsistentRequests(books)
    modifies books`requests, books`balances, books`ledger
    ensures books.Valid() && ConsistentRequests(books)
    ensures r.Ok? <==> id in old(books.requests)
    ensures r.Ok? ==>
              var q := old(books.requests[id]);
              && books.requests == old(books.requests)[id := q.(status := Cancelled)]
              && books.View(q.key) == (if q.status.Approved? then AfterCancellation(old(books.View(q.key)), q, now)
                                       else old(books.View(q.key)))
              && forall key :: key != q.key ==> books.View(key) == old(books.View(key))
    ensures r.Err? ==> books.requests == old(books.requests) && forall key :: books.View(key) == old(books.View(key))
    ensures books.requests == RequestsAfter(old(books.requests), Cancellation(id, now))
    ensures forall key ::
              books.View(key) == AccountAfter(old(books.requests), key, old(books.View(key)), Cancellation(id, now))
  {
    hide SoundAccount;
    if id !in books.requests {
      return Err(NotFound);
    }
    var q := books.requests[id];
    if q.status.Approved? {
      if !q.isLop {
        books.AdjustUsedDays(q.key, -q.days, RequestCancelled, now);
      }
      if q.eventDate.Some? {
        books.AdjustAccruedDays(q.key, -q.days, EventGrant, now);
      }
    }
    books.requests := books.requests[id := q.(status := Cancelled)];
    return Ok(());
  }
}
