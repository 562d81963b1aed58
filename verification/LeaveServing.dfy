/** Whom the leave engine serves, and what a year's end carries: which accounts change, and by how much. */
module LeaveServing {
  import opened Integers
  import opened LeaveAccount
  import opened LeaveBooks
  import opened LeaveEntitlement
  import opened LeaveYearEnd
  import opened Wrappers

  /** Employed, and of an active type that accrues by policy, with a quota. */
  predicate Served(e: Employee, t: LeaveType) {
    !e.separated && t.active && !t.onEvent && !t.isCompOff && t.quota >= 1
  }

  /** A run changes no account but those of listed employees and types that are served. */
  lemma OnlyServedAreCredited(w: LeaveYear, employees: seq<Employee>, types: seq<LeaveType>, goLive: Option<int>,
      today: int, key: Key, a: Account)
    requires w.Valid() && AfterRun(w, employees, types, goLive, today, key, a) != a
    ensures exists i, k ::
      0 <= i < |employees| && 0 <= k < |types| && employees[i].id == key.employeeId &&
        types[k].id == key.leaveTypeId && Served(employees[i], types[k])
  {
    EmployeeAtIsListed(employees, key.employeeId);
    TypeAtIsListed(types, key.leaveTypeId);
  }

  /** A served account without policy credits is brought to what its type has earned since the employee's start. */
  lemma ServedGetWhatIsEarned(w: LeaveYear, employees: seq<Employee>, types: seq<LeaveType>, goLive: Option<int>,
      today: int, a: Account, i: nat, k: nat)
    requires w.Valid() && DistinctEmployees(employees) && DistinctTypes(types) && i < |employees| && k < |types|
    requires Served(employees[i], types[k]) && AccruedSum(a.entries, w) == 0
    requires CreditedStarts(a.entries, types[k].frequency, w) == {}
    ensures var e, t := employees[i], types[k];
      var start := EffectiveStartOf(w, e.dateOfJoining, goLive);
      AccruedSum(AfterRun(w, employees, types, goLive, today, Key(e.id, t.id), a).entries, w) ==
      Min(t.quota, EarnedBy(Policy(t.frequency, t.quota, w, start, HasOpening(a.entries, w)), today))
  {
    EmployeeAtFinds(employees, i);
    TypeAtFinds(types, k);
    var e, t := employees[i], types[k];
    var terms := TermsOf(w, e, t, goLive);
    OwedIsEarned(PolicyOf(terms, a.entries), today, 0);
    OwedIsWellDated(terms, today, a.entries);
    ReadsBackCredits(Key(e.id, t.id), a, Owed(terms, today, a.entries), t.frequency, w);
    hide CreditsOwed;
  }

  /** A recalculation reverses nothing of types that grant per event or for working on days off. */
  lemma OnlyAccruedAreReversed(w: LeaveYear, types: seq<LeaveType>, key: Key, a: Account, starts: seq<int>)
    requires w.Valid() && AfterReversal(w, types, key, a, starts) != a
    ensures exists k :: 0 <= k < |types| && types[k].id == key.leaveTypeId && !types[k].onEvent && !types[k].isCompOff
  {
    TypeAtIsListed(types, key.leaveTypeId);
  }

  // ---- The year's end ----

  /** An entry of the year has carried days forward already. */
  predicate HasCarried(entries: seq<Entry>, w: LeaveYear)
    requires |w.bounds| == 13
  {
    exists i :: 0 <= i < |entries| && entries[i].source == CarryForward
                && w.Start() <= entries[i].occurredAt && entries[i].occurredAt < w.End()
  }

  /**
   * Employees still there carry their unused days of an active, accrued type forward, as far as its cap allows and
   * once in a year; nobody else carries anything.
   */
  lemma CarryBrings(w: LeaveYear, employees: seq<Employee>, types: seq<LeaveType>, key: Key,
      previous: Option<Balance>, a: Account, i: nat, k: nat)
    requires w.Valid() && DistinctEmployees(employees) && DistinctTypes(types) && i < |employees| && k < |types|
    requires key == Key(employees[i].id, types[k].id)
    ensures var after := AfterCarry(w, employees, types, key, previous, a);
      var unused := if previous.Some? then previous.value.accrued - previous.value.used else 0;
      var cap := types[k].carryForwardCap;
      Available(after.row) - Available(a.row) ==
      if employees[i].separated || !types[k].active || types[k].onEvent || HasCarried(a.entries, w) then 0
      else Max(0, Min(unused, cap))
  {
    EmployeeAtFinds(employees, i);
    TypeAtFinds(types, k);
    var amount := CarryAmount(w, employees, types, key, previous, a.entries);
    assert Carried(a.entries, w) <==> HasCarried(a.entries, w);
    if amount > 0 {
      CarryEntries(w, key, a, amount);
    }
  }

  // ---- Comp-off ----

  /** The comp-off type is the first one listed, if there is any. */
  lemma {:induction false} CompOffIsFirst(types: seq<LeaveType>)
    ensures CompOffIn(types).Some? <==> exists k :: 0 <= k < |types| && types[k].isCompOff
    ensures CompOffIn(types).Some? ==>
      exists k :: 0 <= k < |types| && types[k] == CompOffIn(types).value && types[k].isCompOff &&
        forall j :: 0 <= j < k ==> !types[j].isCompOff
  {
    if types != [] && !types[0].isCompOff {
      CompOffIsFirst(types[1..]);
      if CompOffIn(types[1..]).Some? {
        var k :| 0 <= k < |types[1..]| && types[1..][k] == CompOffIn(types).value && types[1..][k].isCompOff
          && forall j :: 0 <= j < k ==> !types[1..][j].isCompOff;
        assert types[k + 1] == types[1..][k];
        assert forall j :: 1 <= j < k + 1 ==> types[j] == types[1..][j - 1];
      }
      if k :| 0 <= k < |types| && types[k].isCompOff {
        assert types[1..][k - 1] == types[k];
      }
    }
  }

  /** A day counts as credited exactly when an entry of that very day credits it. */
  lemma CompOffIsOfTheDay(books: Books, key: Key, date: int)
    ensures books.CompOffCredited(key, date) <==>
      exists e :: e in books.ledger && e.key == key && e.source == CompOffCredit && e.occurredAt == date
  {
    if books.CompOffCredited(key, date) {
      var i :| 0 <= i < |books.ledger| && books.ledger[i].key == key && books.ledger[i].source.CompOffCredit?
        && date <= books.ledger[i].occurredAt < date + 1;
      assert books.ledger[i] in books.ledger;
    }
  }
}
