/**
 * The entitlement service and the policy recalculation as they run over the whole tables: the
 * ledger is read once into maps, credits are planned for every covered employee and type, and all
 * writes happen at the end.
 */
module LeaveEngine {
  import opened LeaveAccount
  import opened LeaveBooks
  import opened LeaveEntitlement
  import opened LeaveRecalculation
  import opened Sequences
  import opened Wrappers

  // ---- The ledger, read once ----

  /** What one pass over the ledger collects per account. */
  datatype Summary = Summary(accrued: map<Key, int>, nets: map<Key, map<int, int>>, opening: set<Key>)

  function AccruedIn(s: Summary, key: Key): int {
    if key in s.accrued then s.accrued[key] else 0
  }

  function NetIn(s: Summary, key: Key, start: int): int {
    if key in s.nets && start in s.nets[key] then s.nets[key][start] else 0
  }

  function CreditedIn(s: Summary, key: Key): set<int> {
    if key in s.nets then set start | start in s.nets[key] && s.nets[key][start] > 0 else {}
  }

  function FrequencyOf(types: seq<LeaveType>, key: Key): Frequency
    requires TypeAt(types, key.leaveTypeId).Some?
  {
    TypeAt(types, key.leaveTypeId).value.frequency
  }

  /** The summary says of every account of a known type what the account's entries say. */
  ghost predicate Summarizes(s: Summary, types: seq<LeaveType>, w: LeaveYear, ledger: seq<Entry>)
    requires w.Valid()
  {
    forall key: Key ::
      TypeAt(types, key.leaveTypeId).Some? ==> SummarizesAccount(s, types, w, key, EntriesOf(ledger, key))
  }

  ghost predicate SummarizesAccount(s: Summary, types: seq<LeaveType>, w: LeaveYear, key: Key, entries: seq<Entry>)
    requires w.Valid() && TypeAt(types, key.leaveTypeId).Some?
  {
    && AccruedIn(s, key) == AccruedSum(entries, w)
    && (forall start :: NetIn(s, key, start) == NetOf(entries, FrequencyOf(types, key), w, start))
    && (key in s.opening <==> HasOpening(entries, w))
  }

  /** The summary with one more ledger entry counted in. */
  function Count(s: Summary, types: seq<LeaveType>, w: LeaveYear, e: Entry): Summary
    requires w.Valid()
  {
    if !(w.Start() <= e.occurredAt < w.End()) || TypeAt(types, e.key.leaveTypeId).None? then s
    else if e.source.OpeningBalance? then s.(opening := s.opening + {e.key})
    else if !IsPolicyEntry(e, w) then s
    else
      var accrued := s.accrued[e.key := AccruedIn(s, e.key) + e.delta];
      var period := PeriodContaining(FrequencyOf(types, e.key), w, e.occurredAt);
      if period.None? then s.(accrued := accrued)
      else
        var start := period.value.start;
        var periods := if e.key in s.nets then s.nets[e.key] else map[];
        s.(accrued := accrued, nets := s.nets[e.key := periods[start := NetIn(s, e.key, start) + e.delta]])
  }

  lemma CountOwn(s: Summary, types: seq<LeaveType>, w: LeaveYear, entries: seq<Entry>, e: Entry)
    requires w.Valid() && TypeAt(types, e.key.leaveTypeId).Some?
    requires SummarizesAccount(s, types, w, e.key, entries)
    ensures SummarizesAccount(Count(s, types, w, e), types, w, e.key, entries + [e])
  {
    var t, f := Count(s, types, w, e), FrequencyOf(types, e.key);
    forall start
      ensures NetIn(t, e.key, start) == NetOf(entries + [e], f, w, start)
      ensures AccruedIn(t, e.key) == AccruedSum(entries + [e], w)
    {
      OneMoreEntry(entries, e, f, w, start);
    }
    OneMoreEntry(entries, e, f, w, 0);
    OpeningOfOneMore(entries, e, w);
  }

  lemma OpeningOfOneMore(entries: seq<Entry>, e: Entry, w: LeaveYear)
    requires w.Valid()
    ensures HasOpening(entries + [e], w)
            <==> HasOpening(entries, w) || (e.source.OpeningBalance? && w.Start() <= e.occurredAt < w.End())
  {
    var es := entries + [e];
    assert forall i :: 0 <= i < |entries| ==> es[i] == entries[i];
    assert es[|entries|] == e;
  }

  lemma CountOther(s: Summary, types: seq<LeaveType>, w: LeaveYear, key: Key, entries: seq<Entry>, e: Entry)
    requires w.Valid() && TypeAt(types, key.leaveTypeId).Some? && e.key != key
    requires SummarizesAccount(s, types, w, key, entries)
    ensures SummarizesAccount(Count(s, types, w, e), types, w, key, entries)
  {
  }

  method ReadLedger(types: seq<LeaveType>, w: LeaveYear, ledger: seq<Entry>) returns (s: Summary)
    requires w.Valid()
    ensures Summarizes(s, types, w, ledger)
  {
    s := Summary(map[], map[], {});
    for i := 0 to |ledger|
      invariant Summarizes(s, types, w, ledger[..i])
    {
      var e := ledger[i];
      forall key: Key | TypeAt(types, key.leaveTypeId).Some?
        ensures SummarizesAccount(Count(s, types, w, e), types, w, key, EntriesOf(ledger[..i + 1], key))
      {
        assert ledger[..i + 1] == ledger[..i] + [e];
        AppendOwn(ledger[..i], [e], e.key, key);
        if key == e.key {
          CountOwn(s, types, w, EntriesOf(ledger[..i], key), e);
        } else {
          CountOther(s, types, w, key, EntriesOf(ledger[..i], key), e);
        }
      }
      s := Count(s, types, w, e);
    }
    assert ledger[..|ledger|] == ledger;
  }

  lemma CreditedMatches(s: Summary, types: seq<LeaveType>, w: LeaveYear, key: Key, entries: seq<Entry>)
    requires w.Valid() && TypeAt(types, key.leaveTypeId).Some? && SummarizesAccount(s, types, w, key, entries)
    ensures CreditedIn(s, key) == CreditedStarts(entries, FrequencyOf(types, key), w)
  {
    var f := FrequencyOf(types, key);
    forall start
      ensures start in CreditedIn(s, key) <==> start in CreditedStarts(entries, f, w)
    {
      assert NetIn(s, key, start) == NetOf(entries, f, w, start);
      if start !in PeriodStarts(f, w) {
        NetNeedsPeriod(entries, f, w, start);
      }
    }
  }

  // ---- Planning the writes ----

  /** The new row and the new entries that credits come to. */
  method Plan(key: Key, a: Account, credits: seq<Credit>, source: Source) returns (row: Balance, added: seq<Entry>)
    requires credits != []
    ensures PostCredits(key, a, credits, source) == Account(Some(row), a.entries + added)
    ensures forall i :: 0 <= i < |added| ==> added[i].key == key
  {
    var running := Available(a.row);
    var total := 0;
    added := [];
    ghost var all := CreditEntries(key, credits, Available(a.row), source);
    var i := 0;
    assert [] + all == all && credits[0..] == credits;
    while i < |credits|
      invariant 0 <= i <= |credits|
      invariant all == added + CreditEntries(key, credits[i..], running, source)
      invariant Total(credits) == total + Total(credits[i..])
      invariant forall k :: 0 <= k < |added| ==> added[k].key == key
    {
      var c := credits[i];
      running := running + c.amount;
      total := total + c.amount;
      assert credits[i..][0] == c && credits[i..][1..] == credits[i + 1..];
      ConcatAssociates(added, [Entry(key, c.amount, running, source, c.occurredAt)],
        CreditEntries(key, credits[i + 1..], running, source));
      added := added + [Entry(key, c.amount, running, source, c.occurredAt)];
      i := i + 1;
    }
    assert added + [] == added;
    row := WithAccrued(a.row, total);
  }

  /** The tables with one account's plan written, every other account as it was. */
  lemma StagedOne(balances: Balances, ledger: seq<Entry>, key: Key, row: Balance, added: seq<Entry>, other: Key)
    requires forall i :: 0 <= i < |added| ==> added[i].key == key
    ensures AccountIn(balances[key := row], ledger + added, other)
            == if other == key then Account(Some(row), EntriesOf(ledger, key) + added)
               else AccountIn(balances, ledger, other)
  {
    AppendOwn(ledger, added, key, other);
  }

  // ---- applyPolicyDefaults ----

  /** The pairs handled when the outer loop is at employee `i` and the inner one at type `j`. */
  predicate Handled(employees: seq<Employee>, types: seq<LeaveType>, i: nat, j: nat, key: Key)
    requires i <= |employees| && j <= |types| && (i == |employees| ==> j == 0)
  {
    (exists a, b :: 0 <= a < i && 0 <= b < |types| && key == Key(employees[a].id, types[b].id))
    || (exists b :: 0 <= b < j && key == Key(employees[i].id, types[b].id))
  }

  lemma NotYetHandled(employees: seq<Employee>, types: seq<LeaveType>, i: nat, j: nat)
    requires DistinctEmployees(employees) && DistinctTypes(types) && i < |employees| && j < |types|
    ensures !Handled(employees, types, i, j, Key(employees[i].id, types[j].id))
  {
  }

  lemma HandledNext(employees: seq<Employee>, types: seq<LeaveType>, i: nat, j: nat, key: Key)
    requires i < |employees| && j < |types|
    ensures Handled(employees, types, i, j + 1, key)
            <==> Handled(employees, types, i, j, key) || key == Key(employees[i].id, types[j].id)
  {
  }

  lemma HandledRow(employees: seq<Employee>, types: seq<LeaveType>, i: nat, key: Key)
    requires i < |employees|
    ensures Handled(employees, types, i + 1, 0, key) <==> Handled(employees, types, i, |types|, key)
  {
    if Handled(employees, types, i, |types|, key) {
      if b :| 0 <= b < |types| && key == Key(employees[i].id, types[b].id) {
        assert 0 <= i < i + 1;
      }
    }
  }

  lemma CoveredIsHandled(employees: seq<Employee>, types: seq<LeaveType>, key: Key)
    requires EmployeeAt(employees, key.employeeId).Some? && TypeAt(types, key.leaveTypeId).Some?
    ensures Handled(employees, types, |employees|, 0, key)
  {
    EmployeeAtIsListed(employees, key.employeeId);
    TypeAtIsListed(types, key.leaveTypeId);
    var i :| 0 <= i < |employees| && employees[i].id == key.employeeId;
    var j :| 0 <= j < |types| && types[j].id == key.leaveTypeId;
    assert key == Key(employees[i].id, types[j].id);
  }

  /** The credits the service computes for one pair are the ones the engine owes the account. */
  method CreditsFor(w: LeaveYear, types: seq<LeaveType>, e: Employee, t: LeaveType, goLive: Option<int>, today: int,
      s: Summary, ghost entries: seq<Entry>) returns (credits: seq<Credit>)
    requires w.Valid() && TypeAt(types, t.id) == Some(t)
    requires SummarizesAccount(s, types, w, Key(e.id, t.id), entries)
    ensures credits == Owed(TermsOf(w, e, t, goLive), today, entries)
  {
    var key := Key(e.id, t.id);
    var start := EffectiveStart(w, e.dateOfJoining, goLive);
    CreditedMatches(s, types, w, key, entries);
    credits := CreditsDue(Policy(t.frequency, t.quota, w, start, key in s.opening), today, CreditedIn(s, key),
      AccruedIn(s, key));
  }

  /** The account `key` after one run of the engine over the tables. */
  ghost function RunView(books: Books, today: int, key: Key): Account
    requires books.year.Valid()
    reads books
  {
    AfterRun(books.year, books.employees, books.types, books.goLive, today, key, books.View(key))
  }

  /** Every covered account gets exactly what one run of the engine gives it; no other account changes. */
  method ApplyPolicyDefaults(books: Books, today: int)
    requires books.Valid() && books.year.Start() <= today < books.year.End()
    modifies books`balances, books`ledger
    ensures books.Valid()
    ensures forall key :: books.View(key) == old(RunView(books, today, key))
  {
    var balances, ledger := PlanPolicyDefaults(books, today);
    forall key
      ensures SoundAccount(books.year, books.types, key, AccountIn(balances, ledger, key))
    {
      RunKeepsSound(books.year, books.employees, books.types, books.goLive, today, key, books.View(key));
    }
    books.Replace(balances, ledger);
  }

  method PlanPolicyDefaults(books: Books, today: int) returns (balances: Balances, ledger: seq<Entry>)
    requires books.Valid()
    ensures books.balances.Keys <= balances.Keys
    ensures forall key :: AccountIn(balances, ledger, key) == RunView(books, today, key)
  {
    var employees, types := books.employees, books.types;
    var summary := ReadLedger(types, books.year, books.ledger);
    balances, ledger := books.balances, books.ledger;
    for i := 0 to |employees|
      invariant books.balances.Keys <= balances.Keys
      invariant forall key :: AccountIn(balances, ledger, key)
                  == if Handled(employees, types, i, 0, key) then RunView(books, today, key) else books.View(key)
    {
      for j := 0 to |types|
        invariant books.balances.Keys <= balances.Keys
        invariant forall key :: AccountIn(balances, ledger, key)
                    == if Handled(employees, types, i, j, key) then RunView(books, today, key) else books.View(key)
      {
        NotYetHandled(employees, types, i, j);
        balances, ledger := ApplyToOne(books, today, summary, balances, ledger, i, j);
        forall key
          ensures Handled(employees, types, i, j + 1, key)
                  <==> Handled(employees, types, i, j, key) || key == Key(employees[i].id, types[j].id)
        {
          HandledNext(employees, types, i, j, key);
        }
      }
      forall key
        ensures Handled(employees, types, i + 1, 0, key) <==> Handled(employees, types, i, |types|, key)
      {
        HandledRow(employees, types, i, key);
      }
    }
    forall key
      ensures Handled(employees, types, |employees|, 0, key) || RunView(books, today, key) == books.View(key)
    {
      if EmployeeAt(employees, key.employeeId).Some? && TypeAt(types, key.leaveTypeId).Some? {
        CoveredIsHandled(employees, types, key);
      }
    }
  }

  method ApplyToOne(books: Books, today: int, summary: Summary, balances: Balances, ledger: seq<Entry>, i: nat, j: nat)
    returns (balances': Balances, ledger': seq<Entry>)
    requires books.Valid() && i < |books.employees| && j < |books.types|
    requires Summarizes(summary, books.types, books.year, books.ledger)
    requires AccountIn(balances, ledger, Key(books.employees[i].id, books.types[j].id))
             == books.View(Key(books.employees[i].id, books.types[j].id))
    ensures balances.Keys <= balances'.Keys
    ensures var own := Key(books.employees[i].id, books.types[j].id);
            forall key :: AccountIn(balances', ledger', key)
              == if key == own
                 then RunView(books, today, own)
                 else AccountIn(balances, ledger, key)
  {
    var e, t := books.employees[i], books.types[j];
    var own := Key(e.id, t.id);
    EmployeeAtFinds(books.employees, i);
    TypeAtFinds(books.types, j);
    balances', ledger' := balances, ledger;
    if e.separated || !IsPolicyType(t) {
      return;
    }
    var credits :=
      CreditsFor(books.year, books.types, e, t, books.goLive, today, summary, EntriesOf(books.ledger, own));
    if |credits| == 0 {
      return;
    }
    var row, added := Plan(own, Account(RowOf(balances, own), EntriesOf(ledger, own)), credits, Accrual);
    forall key
      ensures AccountIn(balances[own := row], ledger + added, key)
              == if key == own then Account(Some(row), EntriesOf(ledger, own) + added)
                else AccountIn(balances, ledger, key)
    {
      StagedOne(balances, ledger, own, row, added, key);
    }
    balances', ledger' := balances[own := row], ledger + added;
  }
}
