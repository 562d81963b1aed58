/** Carry-forward: unused days of the previous leave year, rolled over once in the year's first week. */
module LeaveYearEnd {
  import opened LeaveAccount
  import opened LeaveBooks
  import opened LeaveEngine
  import opened LeaveEntitlement
  import opened Wrappers

  const CARRY_FORWARD_DAYS := 7

  predicate IsCarryEntry(e: Entry, w: LeaveYear)
    requires w.Valid()
  {
    e.source.CarryForward? && w.Start() <= e.occurredAt < w.End()
  }

  predicate Carried(entries: seq<Entry>, w: LeaveYear)
    requires w.Valid()
  {
    exists i :: 0 <= i < |entries| && IsCarryEntry(entries[i], w)
  }

  function PreviousAt(previous: seq<PreviousRow>, key: Key): Option<Balance> {
    if previous == [] then None
    else if previous[|previous| - 1].key == key then Some(previous[|previous| - 1].balance)
    else PreviousAt(previous[..|previous| - 1], key)
  }

  ghost predicate DistinctRows(previous: seq<PreviousRow>) {
    forall i, j :: 0 <= i < j < |previous| ==> previous[i].key != previous[j].key
  }

  predicate MayCarry(employees: seq<Employee>, types: seq<LeaveType>, key: Key) {
    var e, t := EmployeeAt(employees, key.employeeId), TypeAt(types, key.leaveTypeId);
    e.Some? && t.Some? && !e.value.separated && t.value.active && !t.value.onEvent && t.value.carryForwardCap > 0
  }

  /** Days an account still has to receive from the previous year's row. */
  function CarryAmount(w: LeaveYear, employees: seq<Employee>, types: seq<LeaveType>, key: Key,
      previous: Option<Balance>, entries: seq<Entry>): int
    requires w.Valid()
  {
    if previous.None? || !MayCarry(employees, types, key) || Carried(entries, w) then 0
    else CarryForwardDays(Available(previous), TypeAt(types, key.leaveTypeId).value.carryForwardCap)
  }

  /** What a carry-forward run does to an account. */
  function AfterCarry(w: LeaveYear, employees: seq<Employee>, types: seq<LeaveType>, key: Key,
      previous: Option<Balance>, a: Account): Account
    requires w.Valid()
  {
    var amount := CarryAmount(w, employees, types, key, previous, a.entries);
    if amount <= 0 then a
    else PostCredits(key, a, [Credit(w.Start(), w.Start(), amount)], CarryForward)
  }

  lemma CarryEntries(w: LeaveYear, key: Key, a: Account, amount: int)
    requires w.Valid() && amount > 0
    ensures var e := Entry(key, amount, Available(a.row) + amount, CarryForward, w.Start());
            && IsCarryEntry(e, w)
            && PostCredits(key, a, [Credit(w.Start(), w.Start(), amount)], CarryForward)
               == Account(Some(WithAccrued(a.row, amount)), a.entries + [e])
  {
    var c := Credit(w.Start(), w.Start(), amount);
    OneMoreCredit(c, []);
    assert [c] + [] == [c] && [c][1..] == [];
    var e := Entry(key, amount, Available(a.row) + amount, CarryForward, w.Start());
    assert CreditEntries(key, [c], Available(a.row), CarryForward) == [e] + [] == [e];
    PeriodsTile(Annual, w);
  }

  /** A second carry-forward in the same year credits nothing. */
  lemma CarryForwardHappensOnce(w: LeaveYear, employees: seq<Employee>, types: seq<LeaveType>, key: Key,
      previous: Option<Balance>, again: Option<Balance>, a: Account)
    requires w.Valid()
    ensures var after := AfterCarry(w, employees, types, key, previous, a);
            after != a ==> AfterCarry(w, employees, types, key, again, after) == after
  {
    var amount := CarryAmount(w, employees, types, key, previous, a.entries);
    if amount > 0 {
      CarryEntries(w, key, a, amount);
      var after := AfterCarry(w, employees, types, key, previous, a);
      assert IsCarryEntry(after.entries[|a.entries|], w);
    }
  }

  lemma CarryKeepsSound(w: LeaveYear, employees: seq<Employee>, types: seq<LeaveType>, key: Key,
      previous: Option<Balance>, a: Account)
    requires w.Valid() && SoundAccount(w, types, key, a)
    ensures SoundAccount(w, types, key, AfterCarry(w, employees, types, key, previous, a))
  {
    var amount := CarryAmount(w, employees, types, key, previous, a.entries);
    if amount > 0 {
      var e := Entry(key, amount, Available(a.row) + amount, CarryForward, w.Start());
      var b := AfterCarry(w, employees, types, key, previous, a);
      CarryEntries(w, key, a, amount);
      PostKeepsReconciled(a, b.row, e);
      OtherEntryKeepsSound(w, types, key, a, b, e);
    }
  }

  ghost function CarryView(books: Books, previous: seq<PreviousRow>, key: Key): Account
    requires books.year.Valid()
    reads books
  {
    AfterCarry(books.year, books.employees, books.types, key, PreviousAt(previous, key), books.View(key))
  }

  /** In the first week of the year, and only then, each account receives what it may carry forward. */
  method ApplyCarryForward(books: Books, previous: seq<PreviousRow>, today: int)
    requires books.Valid() && DistinctRows(previous)
    modifies books`balances, books`ledger
    ensures books.Valid()
    ensures forall key :: books.View(key)
              == if today >= books.year.Start() + CARRY_FORWARD_DAYS then old(books.View(key))
                 else old(CarryView(books, previous, key))
  {
    if today >= books.year.Start() + CARRY_FORWARD_DAYS {
      return;
    }
    var balances, ledger := PlanCarryForward(books, previous);
    forall key
      ensures SoundAccount(books.year, books.types, key, AccountIn(balances, ledger, key))
    {
      CarryKeepsSound(books.year, books.employees, books.types, key, PreviousAt(previous, key), books.View(key));
    }
    books.Replace(balances, ledger);
  }

  /** Keys of the accounts that already hold a carry-forward entry of the year. */
  method CarriedKeys(w: LeaveYear, ledger: seq<Entry>) returns (done: set<Key>)
    requires w.Valid()
    ensures forall key :: key in done <==> Carried(EntriesOf(ledger, key), w)
  {
    done := {};
    for i := 0 to |ledger|
      invariant forall key :: key in done <==> Carried(EntriesOf(ledger[..i], key), w)
    {
      forall key
        ensures Carried(EntriesOf(ledger[..i + 1], key), w)
                <==> Carried(EntriesOf(ledger[..i], key), w) || (ledger[i].key == key && IsCarryEntry(ledger[i], w))
      {
        assert ledger[..i + 1] == ledger[..i] + [ledger[i]];
        AppendOwn(ledger[..i], [ledger[i]], ledger[i].key, key);
        CarriedOfOneMore(EntriesOf(ledger[..i], key), ledger[i], w);
      }
      if IsCarryEntry(ledger[i], w) {
        done := done + {ledger[i].key};
      }
    }
    assert ledger[..|ledger|] == ledger;
  }

  lemma CarriedOfOneMore(entries: seq<Entry>, e: Entry, w: LeaveYear)
    requires w.Valid()
    ensures Carried(entries + [e], w) <==> Carried(entries, w) || IsCarryEntry(e, w)
  {
    var es := entries + [e];
    assert forall i :: 0 <= i < |entries| ==> es[i] == entries[i];
    assert es[|entries|] == e;
  }

  method PlanCarryForward(books: Books, previous: seq<PreviousRow>) returns (balances: Balances, ledger: seq<Entry>)
    requires books.Valid() && DistinctRows(previous)
    ensures books.balances.Keys <= balances.Keys
    ensures forall key :: AccountIn(balances, ledger, key) == CarryView(books, previous, key)
  {
    var w := books.year;
    var done := CarriedKeys(w, books.ledger);
    balances, ledger := books.balances, books.ledger;
    for i := 0 to |previous|
      invariant books.balances.Keys <= balances.Keys
      invariant forall key :: AccountIn(balances, ledger, key) == CarryView(books, previous[..i], key)
    {
      PreviousOfOneMore(previous, i);
      balances, ledger := CarryOne(books, previous[i], done, balances, ledger);
    }
    assert previous[..|previous|] == previous;
  }

  method CarryOne(books: Books, prev: PreviousRow, done: set<Key>, balances: Balances, ledger: seq<Entry>)
    returns (balances': Balances, ledger': seq<Entry>)
    requires books.Valid() && AccountIn(balances, ledger, prev.key) == books.View(prev.key)
    requires forall key :: key in done <==> Carried(EntriesOf(books.ledger, key), books.year)
    ensures balances.Keys <= balances'.Keys
    ensures forall key :: AccountIn(balances', ledger', key)
              == if key == prev.key then
                   AfterCarry(books.year, books.employees, books.types, key, Some(prev.balance), books.View(key))
                 else AccountIn(balances, ledger, key)
  {
    var w, key := books.year, prev.key;
    balances', ledger' := balances, ledger;
    if key in done || !MayCarry(books.employees, books.types, key) {
      return;
    }
    var cap := TypeAt(books.types, key.leaveTypeId).value.carryForwardCap;
    var amount := CarryForwardDays(prev.balance.accrued - prev.balance.used, cap);
    if amount <= 0 {
      return;
    }
    var row, added := Plan(key, Account(RowOf(balances, key), EntriesOf(ledger, key)),
      [Credit(w.Start(), w.Start(), amount)], CarryForward);
    forall other
      ensures AccountIn(balances[key := row], ledger + added, other)
              == if other == key then Account(Some(row), EntriesOf(ledger, key) + added)
                 else AccountIn(balances, ledger, other)
    {
      StagedOne(balances, ledger, key, row, added, other);
    }
    balances', ledger' := balances[key := row], ledger + added;
  }

  lemma {:induction false} PreviousOnly(previous: seq<PreviousRow>, i: nat, n: nat)
    requires DistinctRows(previous) && n <= i < |previous|
    ensures PreviousAt(previous[..n], previous[i].key) == None
  {
    if n > 0 {
      assert previous[..n][..n - 1] == previous[..n - 1];
      PreviousOnly(previous, i, n - 1);
    }
  }

  lemma PreviousOfOneMore(previous: seq<PreviousRow>, i: nat)
    requires DistinctRows(previous) && i < |previous|
    ensures PreviousAt(previous[..i], previous[i].key) == None
    ensures PreviousAt(previous[..i + 1], previous[i].key) == Some(previous[i].balance)
    ensures forall key ::
      key != previous[i].key ==> PreviousAt(previous[..i + 1], key) == PreviousAt(previous[..i], key)
  {
    assert previous[..i + 1][..i] == previous[..i];
    PreviousOnly(previous, i, i);
  }
}
