/**
 * The leave tables of one tenant and leave year, and the transactions that write them. Every
 * transaction keeps every account reconciled with its ledger.
 */
module LeaveBooks {
  import opened LeaveAccount
  import opened LeaveEntitlement
  import opened LeavePosting
  import opened LeaveRecalculation
  import opened Sequences
  import opened Wrappers

  datatype LeaveType = LeaveType(
    id: string, active: bool, isCompOff: bool, onEvent: bool, frequency: Frequency, quota: int, carryForwardCap: int)

  datatype Employee = Employee(id: string, separated: bool, dateOfJoining: Option<int>)

  /** A balance row of the previous leave year. */
  datatype PreviousRow = PreviousRow(key: Key, balance: Balance)

  type Balances = map<Key, Balance>

  // ---- Accounts inside the tables ----

  function EntriesOf(ledger: seq<Entry>, key: Key): seq<Entry> {
    if ledger == [] then []
    else
      var last := ledger[|ledger| - 1];
      EntriesOf(ledger[..|ledger| - 1], key) + if last.key == key then [last] else []
  }

  function RowOf(balances: Balances, key: Key): Option<Balance> {
    if key in balances then Some(balances[key]) else None
  }

  function AccountIn(balances: Balances, ledger: seq<Entry>, key: Key): Account {
    Account(RowOf(balances, key), EntriesOf(ledger, key))
  }

  lemma {:induction false} EntriesOfConcat(a: seq<Entry>, b: seq<Entry>, key: Key)
    ensures EntriesOf(a + b, key) == EntriesOf(a, key) + EntriesOf(b, key)
    decreases |b|
  {
    if b == [] {
      assert a + b == a;
      assert EntriesOf(a, key) + [] == EntriesOf(a, key);
    } else {
      var last := b[|b| - 1];
      EntriesOfConcat(a, b[..|b| - 1], key);
      FrontOfConcat(a, b);
      ConcatAssociates(EntriesOf(a, key), EntriesOf(b[..|b| - 1], key), if last.key == key then [last] else []);
    }
  }

  lemma {:induction false} EntriesOfOwn(b: seq<Entry>, key: Key, other: Key)
    requires forall i :: 0 <= i < |b| ==> b[i].key == key
    ensures EntriesOf(b, other) == if other == key then b else []
  {
    if b != [] {
      EntriesOfOwn(b[..|b| - 1], key, other);
      assert b[..|b| - 1] + [b[|b| - 1]] == b;
    }
  }

  /** Appending one account's entries changes that account and no other. */
  lemma AppendOwn(ledger: seq<Entry>, b: seq<Entry>, key: Key, other: Key)
    requires forall i :: 0 <= i < |b| ==> b[i].key == key
    ensures EntriesOf(ledger + b, other) == if other == key then EntriesOf(ledger, key) + b
      else EntriesOf(ledger, other)
  {
    EntriesOfConcat(ledger, b, other);
    EntriesOfOwn(b, key, other);
    if other != key {
      assert EntriesOf(ledger, other) + [] == EntriesOf(ledger, other);
    }
  }

  // ---- Tables of types and employees ----

  function TypeAt(types: seq<LeaveType>, id: string): Option<LeaveType> {
    if types == [] then None
    else if types[0].id == id then Some(types[0])
    else TypeAt(types[1..], id)
  }

  function EmployeeAt(employees: seq<Employee>, id: string): Option<Employee> {
    if employees == [] then None
    else if employees[0].id == id then Some(employees[0])
    else EmployeeAt(employees[1..], id)
  }

  ghost predicate DistinctTypes(types: seq<LeaveType>) {
    forall i, j :: 0 <= i < j < |types| ==> types[i].id != types[j].id
  }

  ghost predicate DistinctEmployees(employees: seq<Employee>) {
    forall i, j :: 0 <= i < j < |employees| ==> employees[i].id != employees[j].id
  }

  lemma {:induction false} TypeAtFinds(types: seq<LeaveType>, i: nat)
    requires DistinctTypes(types) && i < |types|
    ensures TypeAt(types, types[i].id) == Some(types[i])
  {
    if i > 0 {
      TypeAtFinds(types[1..], i - 1);
    }
  }

  lemma {:induction false} EmployeeAtFinds(employees: seq<Employee>, i: nat)
    requires DistinctEmployees(employees) && i < |employees|
    ensures EmployeeAt(employees, employees[i].id) == Some(employees[i])
  {
    if i > 0 {
      EmployeeAtFinds(employees[1..], i - 1);
    }
  }

  lemma {:induction false} TypeAtIsListed(types: seq<LeaveType>, id: string)
    ensures TypeAt(types, id).Some? ==>
      exists i :: 0 <= i < |types| && types[i] == TypeAt(types, id).value && types[i].id == id
  {
    if types != [] && types[0].id != id {
      TypeAtIsListed(types[1..], id);
      if TypeAt(types[1..], id).Some? {
        var i :| 0 <= i < |types[1..]| && types[1..][i] == TypeAt(types[1..], id).value && types[1..][i].id == id;
        assert types[i + 1] == types[1..][i];
      }
    }
  }

  lemma {:induction false} EmployeeAtIsListed(employees: seq<Employee>, id: string)
    ensures EmployeeAt(employees, id).Some? ==>
              exists i :: 0 <= i < |employees| && employees[i] == EmployeeAt(employees, id).value &&
                employees[i].id == id
  {
    if employees != [] && employees[0].id != id {
      EmployeeAtIsListed(employees[1..], id);
      if EmployeeAt(employees[1..], id).Some? {
        var i :| 0 <= i < |employees[1..]| && employees[1..][i] == EmployeeAt(employees[1..], id).value
                 && employees[1..][i].id == id;
        assert employees[i + 1] == employees[1..][i];
      }
    }
  }

  /** Types whose policy credits a recalculation reverses, active or not. */
  predicate IsAccruedType(t: LeaveType) {
    !t.onEvent && !t.isCompOff
  }

  /** Types the engine credits by policy. */
  predicate IsPolicyType(t: LeaveType) {
    t.active && IsAccruedType(t) && t.quota > 0
  }

  function TermsOf(w: LeaveYear, e: Employee, t: LeaveType, goLive: Option<int>): Terms
    requires w.Valid()
  {
    Terms(t.frequency, t.quota, w, EffectiveStartOf(w, e.dateOfJoining, goLive))
  }

  /** What a run of the engine does to an account: nothing, unless the employee and the type are covered. */
  function AfterRun(w: LeaveYear, employees: seq<Employee>, types: seq<LeaveType>, goLive: Option<int>, today: int,
      key: Key, a: Account): Account
    requires w.Valid()
  {
    var e, t := EmployeeAt(employees, key.employeeId), TypeAt(types, key.leaveTypeId);
    if e.Some? && t.Some? && !e.value.separated && IsPolicyType(t.value) then
      Run(key, TermsOf(w, e.value, t.value, goLive), today, a)
    else a
  }

  /** What reversing the policy credits does to an account, in the order given by `starts`. */
  function AfterReversal(w: LeaveYear, types: seq<LeaveType>, key: Key, a: Account, starts: seq<int>): Account
    requires w.Valid()
  {
    var t := TypeAt(types, key.leaveTypeId);
    if t.Some? && IsAccruedType(t.value) then Reverse(key, t.value.frequency, w, a, starts) else a
  }

  /** Each account agrees with its ledger, and no period of it has been reversed by more than it was credited. */
  ghost predicate SoundAccount(w: LeaveYear, types: seq<LeaveType>, key: Key, a: Account)
    requires w.Valid()
  {
    && Reconciled(a)
    && (TypeAt(types, key.leaveTypeId).Some? ==>
          NetsNonNegative(a.entries, TypeAt(types, key.leaveTypeId).value.frequency, w))
  }

  lemma RunKeepsSound(w: LeaveYear, employees: seq<Employee>, types: seq<LeaveType>, goLive: Option<int>, today: int,
      key: Key, a: Account)
    requires w.Valid() && SoundAccount(w, types, key, a)
    ensures SoundAccount(w, types, key, AfterRun(w, employees, types, goLive, today, key, a))
  {
    var e, t := EmployeeAt(employees, key.employeeId), TypeAt(types, key.leaveTypeId);
    if e.Some? && t.Some? && !e.value.separated && IsPolicyType(t.value) {
      var terms := TermsOf(w, e.value, t.value, goLive);
      OwedIsWellDated(terms, today, a.entries);
      PostCreditsReconciled(key, a, Owed(terms, today, a.entries), Accrual);
      ReadsBackCredits(key, a, Owed(terms, today, a.entries), t.value.frequency, w);
    }
  }

  lemma ReversalKeepsSound(w: LeaveYear, types: seq<LeaveType>, key: Key, a: Account, starts: seq<int>)
    requires w.Valid() && SoundAccount(w, types, key, a)
    requires TypeAt(types, key.leaveTypeId).Some? && IsAccruedType(TypeAt(types, key.leaveTypeId).value) ==>
               ListsCredited(starts, a.entries, TypeAt(types, key.leaveTypeId).value.frequency, w)
    ensures SoundAccount(w, types, key, AfterReversal(w, types, key, a, starts))
  {
    var t := TypeAt(types, key.leaveTypeId);
    if t.Some? && IsAccruedType(t.value) {
      UncoveredLosesPolicyCredits(key, t.value.frequency, w, a, starts);
    }
  }

  /** An entry that is not a policy credit leaves the periods' nets alone. */
  lemma OtherEntryKeepsSound(w: LeaveYear, types: seq<LeaveType>, key: Key, a: Account, b: Account, e: Entry)
    requires w.Valid() && SoundAccount(w, types, key, a) && b.entries == a.entries + [e] && Reconciled(b)
    requires !e.source.Accrual? && !e.source.AccrualReversal?
    ensures SoundAccount(w, types, key, b)
  {
    var t := TypeAt(types, key.leaveTypeId);
    if t.Some? {
      forall start
        ensures NetOf(b.entries, t.value.frequency, w, start) >= 0
      {
        OneMoreEntry(a.entries, e, t.value.frequency, w, start);
      }
    }
  }

  lemma AccruedPostingKeepsSound(w: LeaveYear, types: seq<LeaveType>, key: Key, a: Account, delta: int, source: Source,
      at: int)
    requires w.Valid() && SoundAccount(w, types, key, a) && !source.Accrual? && !source.AccrualReversal?
    requires a.row.Some? || delta >= 0
    ensures SoundAccount(w, types, key, PostAccrued(key, a, delta, source, at))
  {
    var b := PostAccrued(key, a, delta, source, at);
    AccruedPostingReconciles(key, a, delta, source, at);
    OtherEntryKeepsSound(w, types, key, a, b, b.entries[|a.entries|]);
  }

  lemma UsedPostingKeepsSound(w: LeaveYear, types: seq<LeaveType>, key: Key, a: Account, delta: int, source: Source,
      at: int)
    requires w.Valid() && SoundAccount(w, types, key, a) && !source.Accrual? && !source.AccrualReversal?
    requires a.row.Some? || delta >= 0
    ensures SoundAccount(w, types, key, PostUsed(key, a, delta, source, at))
  {
    var b := PostUsed(key, a, delta, source, at);
    UsedPostingReconciles(key, a, delta, source, at);
    OtherEntryKeepsSound(w, types, key, a, b, b.entries[|a.entries|]);
  }

  // ---- The tables ----

  class Books {
    const year: LeaveYear
    const types: seq<LeaveType>
    const employees: seq<Employee>
    var goLive: Option<int>
    var balances: Balances
    var ledger: seq<Entry>
    var requests: map<string, LeaveRequest>

    /** One account as the tables hold it. */
    ghost function View(key: Key): Account
      reads this`balances, this`ledger
    {
      AccountIn(balances, ledger, key)
    }

    ghost predicate Valid()
      reads this`balances, this`ledger, this`requests
    {
      && year.Valid() && DistinctTypes(types) && DistinctEmployees(employees)
      && (forall key :: SoundAccount(year, types, key, View(key)))
      && (forall id :: id in requests ==>
            requests[id].days >= 0
            && (requests[id].status.Approved? && (!requests[id].isLop || requests[id].eventDate.Some?) ==>
                  requests[id].key in balances))
    }

    constructor (year: LeaveYear, types: seq<LeaveType>, employees: seq<Employee>)
      requires year.Valid() && DistinctTypes(types) && DistinctEmployees(employees)
      ensures Valid() && this.year == year && this.types == types && this.employees == employees
      ensures forall key :: View(key) == Account(None, [])
    {
      this.year, this.types, this.employees := year, types, employees;
      goLive, balances, ledger, requests := None, map[], [], map[];
    }

    /** Writes one row and appends one entry of the same account. */
    method WriteOne(key: Key, row: Balance, e: Entry)
      requires e.key == key
      modifies this`balances, this`ledger
      ensures balances == old(balances)[key := row] && ledger == old(ledger) + [e]
      ensures View(key) == Account(Some(row), old(View(key)).entries + [e])
      ensures forall other :: other != key ==> View(other) == old(View(other))
    {
      forall other
        ensures EntriesOf(ledger + [e], other)
                == if other == key then EntriesOf(ledger, key) + [e] else EntriesOf(ledger, other)
      {
        AppendOwn(ledger, [e], key, other);
      }
      balances := balances[key := row];
      ledger := ledger + [e];
    }

    /** Commits a batch of writes at once. */
    method Replace(balances: Balances, ledger: seq<Entry>)
      requires Valid() && this.balances.Keys <= balances.Keys
      requires forall key :: SoundAccount(year, types, key, AccountIn(balances, ledger, key))
      modifies this`balances, this`ledger
      ensures Valid() && this.balances == balances && this.ledger == ledger
    {
      this.balances, this.ledger := balances, ledger;
    }

    method AdjustUsedDays(key: Key, delta: int, source: Source, now: int)
      requires year.Valid() && !source.Accrual? && !source.AccrualReversal?
      requires SoundAccount(year, types, key, View(key)) && (key in balances || delta >= 0)
      modifies this`balances, this`ledger
      ensures View(key) == PostUsed(key, old(View(key)), delta, source, now)
      ensures SoundAccount(year, types, key, View(key))
      ensures forall other :: other != key ==> View(other) == old(View(other))
      ensures balances.Keys == old(balances.Keys) + {key}
    {
      hide SoundAccount;
      ghost var before := View(key);
      var row := UpsertUsed(RowOf(balances, key), delta);
      WriteOne(key, row, Entry(key, -delta, row.accrued - row.used, source, now));
      UsedPostingKeepsSound(year, types, key, before, delta, source, now);
    }

    /** Event grants, HR adjustments and comp-off credits all post accrued days this way. */
    method AdjustAccruedDays(key: Key, delta: int, source: Source, now: int)
      requires year.Valid() && !source.Accrual? && !source.AccrualReversal?
      requires SoundAccount(year, types, key, View(key))
      modifies this`balances, this`ledger
      ensures View(key) == PostAccrued(key, old(View(key)), delta, source, now)
      ensures old(key in balances) || delta >= 0 ==> SoundAccount(year, types, key, View(key))
      ensures forall other :: other != key ==> View(other) == old(View(other))
      ensures balances.Keys == old(balances.Keys) + {key}
    {
      hide SoundAccount;
      ghost var before := View(key);
      var row := UpsertAccrued(RowOf(balances, key), delta);
      WriteOne(key, row, Entry(key, delta, row.accrued - row.used, source, now));
      assert View(key) == PostAccrued(key, before, delta, source, now);
      if before.row.Some? || delta >= 0 {
        AccruedPostingKeepsSound(year, types, key, before, delta, source, now);
      }
    }

    /** A manual adjustment; taking days from a missing row is what breaks the books. */
    method AdjustBalanceManual(key: Key, delta: int, now: int)
      requires Valid()
      modifies this`balances, this`ledger
      ensures View(key) == PostAccrued(key, old(View(key)), delta, HrAdjustment, now)
      ensures forall other :: other != key ==> View(other) == old(View(other))
      ensures Valid() <==> old(key in balances) || delta >= 0
    {
      ghost var before := View(key);
      AdjustAccruedDays(key, delta, HrAdjustment, now);
      AccruedPostingReconciles(key, before, delta, HrAdjustment, now);
    }

    /** The comp-off type, if the tenant has one. */
    function CompOffType(): Option<LeaveType> {
      CompOffIn(types)
    }

    predicate CompOffCredited(key: Key, date: int)
      reads this`ledger
    {
      exists i :: 0 <= i < |ledger| && ledger[i].key == key && ledger[i].source.CompOffCredit?
                  && date <= ledger[i].occurredAt < date + 1
    }

    /** One day of comp-off for working on `date`, at most once when it is posted on that same day. */
    method CreditCompOff(employeeId: string, date: int, now: int)
      requires Valid()
      modifies this`balances, this`ledger
      ensures Valid()
      ensures var t := CompOffType();
              if t.None? || old(CompOffCredited(Key(employeeId, t.value.id), date)) then
                balances == old(balances) && ledger == old(ledger)
              else
                var key := Key(employeeId, t.value.id);
                && View(key) == PostAccrued(key, old(View(key)), DAY, CompOffCredit, now)
                && (forall other :: other != key ==> View(other) == old(View(other)))
                && (now == date ==> CompOffCredited(key, date))
    {
      var t := CompOffType();
      if t.None? {
        return;
      }
      var key := Key(employeeId, t.value.id);
      if CompOffCredited(key, date) {
        return;
      }
      AdjustAccruedDays(key, DAY, CompOffCredit, now);
      CompOffEntryFound(key, date, now);
    }

    lemma CompOffEntryFound(key: Key, date: int, now: int)
      requires |View(key).entries| > 0 && View(key).entries[|View(key).entries| - 1].source.CompOffCredit?
      requires View(key).entries[|View(key).entries| - 1].occurredAt == now
      ensures now == date ==> CompOffCredited(key, date)
    {
      var e := View(key).entries[|View(key).entries| - 1];
      EntriesComeFromLedger(ledger, key, e);
      var i :| 0 <= i < |ledger| && ledger[i] == e;
    }
  }

  function CompOffIn(types: seq<LeaveType>): Option<LeaveType> {
    if types == [] then None
    else if types[0].isCompOff then Some(types[0])
    else CompOffIn(types[1..])
  }

  lemma {:induction false} EntriesComeFromLedger(ledger: seq<Entry>, key: Key, e: Entry)
    requires e in EntriesOf(ledger, key)
    ensures e.key == key && exists i :: 0 <= i < |ledger| && ledger[i] == e
  {
    var front, last := ledger[..|ledger| - 1], ledger[|ledger| - 1];
    if e in EntriesOf(front, key) {
      EntriesComeFromLedger(front, key, e);
      var i :| 0 <= i < |front| && front[i] == e;
      assert ledger[i] == e;
    }
  }
}
