/** The policy recalculation over the whole tables: group, reverse, and credit again. */
module LeavePolicyRecalc {
  import opened LeaveAccount
  import opened LeaveBooks
  import opened LeaveEngine
  import opened LeaveEntitlement
  import opened LeaveRecalculation
  import opened Sequences
  import opened Wrappers

  const MAX_GO_LIVE_AHEAD_DAYS := 90

  /** One employee, type and period. */
  datatype GroupKey = GroupKey(key: Key, start: int)

  /** Net policy credit of a group and the earliest date in it. */
  datatype Group = Group(net: int, occurredAt: int)

  type Groups = map<GroupKey, Group>

  /** Periods reversed so far, per account. */
  type Order = map<Key, seq<int>>

  function OrderOf(order: Order, key: Key): seq<int> {
    if key in order then order[key] else []
  }

  predicate Reversed(types: seq<LeaveType>, key: Key) {
    TypeAt(types, key.leaveTypeId).Some? && IsAccruedType(TypeAt(types, key.leaveTypeId).value)
  }

  // ---- Grouping ----

  ghost predicate GroupsAccount(groups: Groups, types: seq<LeaveType>, w: LeaveYear, key: Key, entries: seq<Entry>)
    requires w.Valid() && Reversed(types, key)
  {
    var f := FrequencyOf(types, key);
    forall start ::
      && (GroupKey(key, start) in groups <==> EarliestDate(entries, f, w, start).Some?)
      && (GroupKey(key, start) in groups ==>
            && groups[GroupKey(key, start)].net == NetOf(entries, f, w, start)
            && Some(groups[GroupKey(key, start)].occurredAt) == EarliestDate(entries, f, w, start))
  }

  ghost predicate GroupsLedger(groups: Groups, types: seq<LeaveType>, w: LeaveYear, ledger: seq<Entry>)
    requires w.Valid()
  {
    && (forall g :: g in groups ==> Reversed(types, g.key))
    && (forall key :: Reversed(types, key) ==> GroupsAccount(groups, types, w, key, EntriesOf(ledger, key)))
  }

  /** The groups with one more ledger entry counted in. */
  function CountInGroup(groups: Groups, types: seq<LeaveType>, w: LeaveYear, e: Entry): Groups
    requires w.Valid()
  {
    if !Reversed(types, e.key) || !IsPolicyEntry(e, w) then groups
    else
      var period := PeriodContaining(FrequencyOf(types, e.key), w, e.occurredAt);
      if period.None? then groups
      else
        var g := GroupKey(e.key, period.value.start);
        if g in groups then
          groups[g := Group(groups[g].net + e.delta,
            if groups[g].occurredAt < e.occurredAt then groups[g].occurredAt else e.occurredAt)]
        else groups[g := Group(e.delta, e.occurredAt)]
  }

  lemma NoEarliestNoNet(entries: seq<Entry>, f: Frequency, w: LeaveYear, start: int)
    requires w.Valid() && EarliestDate(entries, f, w, start).None?
    ensures NetOf(entries, f, w, start) == 0
  {
    EarliestDateFound(entries, f, w, start);
  }

  lemma EarliestOfOneMore(entries: seq<Entry>, e: Entry, f: Frequency, w: LeaveYear, start: int)
    requires w.Valid()
    ensures EarliestDate(entries + [e], f, w, start)
            == if !CountsFor(e, f, w, start) then EarliestDate(entries, f, w, start)
               else if EarliestDate(entries, f, w, start).Some? &&
                 EarliestDate(entries, f, w, start).value < e.occurredAt then
                 EarliestDate(entries, f, w, start)
               else Some(e.occurredAt)
  {
    assert (entries + [e])[..|entries|] == entries;
  }

  lemma CountInOwnGroup(groups: Groups, types: seq<LeaveType>, w: LeaveYear, entries: seq<Entry>, e: Entry)
    requires w.Valid() && Reversed(types, e.key) && GroupsAccount(groups, types, w, e.key, entries)
    ensures GroupsAccount(CountInGroup(groups, types, w, e), types, w, e.key, entries + [e])
  {
    var after, f := CountInGroup(groups, types, w, e), FrequencyOf(types, e.key);
    forall start
      ensures
        && (GroupKey(e.key, start) in after <==> EarliestDate(entries + [e], f, w, start).Some?)
        && (GroupKey(e.key, start) in after ==>
              && after[GroupKey(e.key, start)].net == NetOf(entries + [e], f, w, start)
              && Some(after[GroupKey(e.key, start)].occurredAt) == EarliestDate(entries + [e], f, w, start))
    {
      OneMoreEntry(entries, e, f, w, start);
      EarliestOfOneMore(entries, e, f, w, start);
      if EarliestDate(entries, f, w, start).None? {
        NoEarliestNoNet(entries, f, w, start);
      }
    }
  }

  lemma CountInOtherGroup(groups: Groups, types: seq<LeaveType>, w: LeaveYear, key: Key, entries: seq<Entry>, e: Entry)
    requires w.Valid() && Reversed(types, key) && key != e.key && GroupsAccount(groups, types, w, key, entries)
    ensures GroupsAccount(CountInGroup(groups, types, w, e), types, w, key, entries)
  {
    var after := CountInGroup(groups, types, w, e);
    assert forall start :: GroupKey(key, start) in after <==> GroupKey(key, start) in groups;
  }

  method GroupCredits(types: seq<LeaveType>, w: LeaveYear, ledger: seq<Entry>) returns (groups: Groups)
    requires w.Valid()
    ensures GroupsLedger(groups, types, w, ledger)
  {
    groups := map[];
    for i := 0 to |ledger|
      invariant GroupsLedger(groups, types, w, ledger[..i])
    {
      var e := ledger[i];
      forall key | Reversed(types, key)
        ensures GroupsAccount(CountInGroup(groups, types, w, e), types, w, key, EntriesOf(ledger[..i + 1], key))
      {
        assert ledger[..i + 1] == ledger[..i] + [e];
        AppendOwn(ledger[..i], [e], e.key, key);
        if key == e.key {
          CountInOwnGroup(groups, types, w, EntriesOf(ledger[..i], key), e);
        } else {
          CountInOtherGroup(groups, types, w, key, EntriesOf(ledger[..i], key), e);
        }
      }
      groups := CountInGroup(groups, types, w, e);
    }
    assert ledger[..|ledger|] == ledger;
  }

  // ---- Reversing ----

  /** The periods of one account's positive groups that are no longer to come, each once. */
  ghost predicate PlannedStarts(groups: Groups, rest: set<GroupKey>, key: Key, starts: seq<int>) {
    && (forall i, j :: 0 <= i < j < |starts| ==> starts[i] != starts[j])
    && (forall start :: start in starts <==>
          GroupKey(key, start) in groups && GroupKey(key, start) !in rest && groups[GroupKey(key, start)].net > 0)
  }

  lemma OneMoreStart(groups: Groups, rest: set<GroupKey>, g: GroupKey, starts: seq<int>)
    requires PlannedStarts(groups, rest, g.key, starts) && g in rest && g in groups && groups[g].net > 0
    ensures PlannedStarts(groups, rest - {g}, g.key, starts + [g.start])
  {
    assert g == GroupKey(g.key, g.start);
  }

  /** The reversals planned so far for one account, when the groups in `rest` are still to come. */
  ghost predicate PlannedAccount(groups: Groups, rest: set<GroupKey>, order: Order, reversed: map<Key, int>,
      ledger: seq<Entry>, types: seq<LeaveType>, w: LeaveYear, key: Key, a: Account)
    requires w.Valid()
  {
    var starts := OrderOf(order, key);
    if !Reversed(types, key) then starts == [] && key !in reversed && EntriesOf(ledger, key) == a.entries
    else
      var f := FrequencyOf(types, key);
      && PlannedStarts(groups, rest, key, starts)
      && EntriesOf(ledger, key) == Reverse(key, f, w, a, starts).entries
      && (key in reversed <==> starts != [])
      && (key in reversed ==> reversed[key] == SumOfNets(a.entries, f, w, starts))
  }

  lemma NothingPlanned(groups: Groups, ledger: seq<Entry>, types: seq<LeaveType>, w: LeaveYear, key: Key, a: Account)
    requires w.Valid() && a.entries == EntriesOf(ledger, key)
    ensures PlannedAccount(groups, groups.Keys, map[], map[], ledger, types, w, key, a)
  {
    assert a.entries + [] == a.entries;
  }

  lemma PlanOwn(groups: Groups, rest: set<GroupKey>, order: Order, reversed: map<Key, int>, ledger: seq<Entry>,
      types: seq<LeaveType>, w: LeaveYear, g: GroupKey, a: Account)
    requires w.Valid() && Reversed(types, g.key) && GroupsAccount(groups, types, w, g.key, a.entries)
    requires PlannedAccount(groups, rest, order, reversed, ledger, types, w, g.key, a)
    requires g in rest && g in groups && groups[g].net > 0
    ensures var soFar := (if g.key in reversed then reversed[g.key] else 0) + groups[g].net;
            var e := Entry(g.key, -groups[g].net, Available(a.row) - soFar, AccrualReversal, groups[g].occurredAt);
            PlannedAccount(groups, rest - {g}, order[g.key := OrderOf(order, g.key) + [g.start]],
              reversed[g.key := soFar], ledger + [e],
              types, w, g.key, a)
  {
    hide NetOf;
    hide EarliestDate;
    hide PeriodContaining;
    hide TypeAt;
    hide PlannedStarts;
    hide Reverse;
    var f, starts := FrequencyOf(types, g.key), OrderOf(order, g.key);
    OneMoreStart(groups, rest, g, starts);
    var longer := starts + [g.start];
    var soFar := (if g.key in reversed then reversed[g.key] else 0) + groups[g].net;
    var e := Entry(g.key, -groups[g].net, Available(a.row) - soFar, AccrualReversal, groups[g].occurredAt);
    AppendOwn(ledger, [e], g.key, g.key);
    assert g == GroupKey(g.key, g.start);
    assert soFar == SumOfNets(a.entries, f, w, starts) + groups[g].net by {
      if starts == [] {
        assert SumOfNets(a.entries, f, w, starts) == 0;
      }
    }
    assert e == Reversal(g.key, a.entries, f, w, g.start, Available(a.row) - SumOfNets(a.entries, f, w, starts));
    ReverseOneMore(g.key, f, w, a, starts, g.start);
  }

  lemma ReverseOneMore(key: Key, f: Frequency, w: LeaveYear, a: Account, starts: seq<int>, start: int)
    requires w.Valid()
    ensures Reverse(key, f, w, a, starts + [start]).entries
            == Reverse(key, f, w, a, starts).entries
               + [Reversal(key, a.entries, f, w, start, Available(a.row) - SumOfNets(a.entries, f, w, starts))]
    ensures SumOfNets(a.entries, f, w, starts + [start]) ==
      SumOfNets(a.entries, f, w, starts) + NetOf(a.entries, f, w, start)
  {
    assert (starts + [start])[..|starts|] == starts;
    ConcatAssociates(a.entries, Reversals(key, a.entries, f, w, starts, Available(a.row)),
      [Reversal(key, a.entries, f, w, start, Available(a.row) - SumOfNets(a.entries, f, w, starts))]);
  }

  lemma PlanOther(groups: Groups, rest: set<GroupKey>, order: Order, reversed: map<Key, int>, ledger: seq<Entry>,
      types: seq<LeaveType>, w: LeaveYear, g: GroupKey, e: Entry, starts: seq<int>, soFar: int, key: Key, a: Account)
    requires w.Valid() && key != g.key && e.key == g.key
    requires PlannedAccount(groups, rest, order, reversed, ledger, types, w, key, a)
    ensures PlannedAccount(groups, rest - {g}, order[g.key := starts], reversed[g.key := soFar], ledger + [e], types, w,
      key, a)
    ensures PlannedAccount(groups, rest - {g}, order, reversed, ledger, types, w, key, a)
  {
    AppendOwn(ledger, [e], g.key, key);
  }

  lemma SkipOwn(groups: Groups, rest: set<GroupKey>, order: Order, reversed: map<Key, int>, ledger: seq<Entry>,
      types: seq<LeaveType>, w: LeaveYear, g: GroupKey, a: Account)
    requires w.Valid() && PlannedAccount(groups, rest, order, reversed, ledger, types, w, g.key, a)
    requires g in groups && groups[g].net <= 0
    ensures PlannedAccount(groups, rest - {g}, order, reversed, ledger, types, w, g.key, a)
  {
    assert g == GroupKey(g.key, g.start);
  }

  /** One reversal for every group with a positive net, in any order of the groups. */
  method PlanReversals(books: Books, groups: Groups)
    returns (ledger: seq<Entry>, reversed: map<Key, int>, ghost order: Order)
    requires books.Valid() && GroupsLedger(groups, books.types, books.year, books.ledger)
    ensures forall key ::
      PlannedAccount(groups, {}, order, reversed, ledger, books.types, books.year, key, books.View(key))
  {
    hide PlannedAccount;
    hide SoundAccount;
    hide GroupsAccount;
    var types, w := books.types, books.year;
    ledger, reversed, order := books.ledger, map[], map[];
    var rest := groups.Keys;
    forall key
      ensures PlannedAccount(groups, rest, order, reversed, ledger, types, w, key, books.View(key))
    {
      NothingPlanned(groups, ledger, types, w, key, books.View(key));
    }
    while rest != {}
      invariant rest <= groups.Keys
      invariant forall key :: PlannedAccount(groups, rest, order, reversed, ledger, types, w, key, books.View(key))
    {
      var g :| g in rest;
      var soFar := (if g.key in reversed then reversed[g.key] else 0) + groups[g].net;
      var e := Entry(g.key, -groups[g].net, Available(RowOf(books.balances, g.key)) - soFar, AccrualReversal,
                     groups[g].occurredAt);
      ghost var starts := OrderOf(order, g.key) + [g.start];
      forall key | key != g.key
        ensures PlannedAccount(groups, rest - {g}, order[g.key := starts], reversed[g.key := soFar], ledger + [e],
          types, w, key, books.View(key))
        ensures PlannedAccount(groups, rest - {g}, order, reversed, ledger, types, w, key, books.View(key))
      {
        PlanOther(groups, rest, order, reversed, ledger, types, w, g, e, starts, soFar, key, books.View(key));
      }
      if groups[g].net <= 0 {
        SkipOwn(groups, rest, order, reversed, ledger, types, w, g, books.View(g.key));
      } else {
        PlanOwn(groups, rest, order, reversed, ledger, types, w, g, books.View(g.key));
        reversed := reversed[g.key := soFar];
        ledger := ledger + [e];
        order := order[g.key := starts];
      }
      rest := rest - {g};
    }
  }

  function Decremented(row: Balance, reversed: map<Key, int>, key: Key): Balance {
    if key in reversed then Balance(row.accrued - reversed[key], row.used) else row
  }

  /** Decrements the balances by what was reversed, where there is a balance row. */
  method DecrementBalances(balances: Balances, reversed: map<Key, int>) returns (updated: Balances)
    ensures updated.Keys == balances.Keys
    ensures forall key :: key in balances ==> updated[key] == Decremented(balances[key], reversed, key)
  {
    updated := balances;
    var rest := reversed.Keys;
    while rest != {}
      invariant rest <= reversed.Keys && updated.Keys == balances.Keys
      invariant forall key :: key in balances ==>
                  updated[key] == if key in rest then balances[key] else Decremented(balances[key], reversed, key)
    {
      var key :| key in rest;
      if key in updated {
        updated := updated[key := Balance(updated[key].accrued - reversed[key], updated[key].used)];
      }
      rest := rest - {key};
    }
  }

  lemma PlannedListsCredited(groups: Groups, order: Order, reversed: map<Key, int>, ledger: seq<Entry>,
      types: seq<LeaveType>, w: LeaveYear, key: Key, a: Account)
    requires w.Valid() && Reversed(types, key) && GroupsAccount(groups, types, w, key, a.entries)
    requires PlannedAccount(groups, {}, order, reversed, ledger, types, w, key, a)
    ensures ListsCredited(OrderOf(order, key), a.entries, FrequencyOf(types, key), w)
  {
    var f, starts := FrequencyOf(types, key), OrderOf(order, key);
    forall start
      ensures start in starts <==> start in CreditedStarts(a.entries, f, w)
    {
      EarliestDateFound(a.entries, f, w, start);
      if start !in PeriodStarts(f, w) {
        NetNeedsPeriod(a.entries, f, w, start);
      }
    }
  }

  lemma PlannedRow(groups: Groups, order: Order, reversed: map<Key, int>, ledger: seq<Entry>,
      types: seq<LeaveType>, w: LeaveYear, key: Key, a: Account)
    requires w.Valid() && Reversed(types, key)
    requires PlannedAccount(groups, {}, order, reversed, ledger, types, w, key, a)
    ensures var row := if a.row.None? then None else Some(Decremented(a.row.value, reversed, key));
            Account(row, EntriesOf(ledger, key)) == Reverse(key, FrequencyOf(types, key), w, a, OrderOf(order, key))
  {
    hide NetOf;
    hide EarliestDate;
  }

  /** The planned reversals are a reversal of the credited periods, each once. */
  lemma PlannedIsReversal(groups: Groups, order: Order, reversed: map<Key, int>, ledger: seq<Entry>,
      types: seq<LeaveType>, w: LeaveYear, key: Key, a: Account, row: Option<Balance>)
    requires w.Valid() && PlannedAccount(groups, {}, order, reversed, ledger, types, w, key, a)
    requires Reversed(types, key) ==> GroupsAccount(groups, types, w, key, a.entries)
    requires row == if a.row.None? then None else Some(Decremented(a.row.value, reversed, key))
    ensures Account(row, EntriesOf(ledger, key)) == AfterReversal(w, types, key, a, OrderOf(order, key))
    ensures Reversed(types, key) ==> ListsCredited(OrderOf(order, key), a.entries, FrequencyOf(types, key), w)
  {
    if Reversed(types, key) {
      PlannedListsCredited(groups, order, reversed, ledger, types, w, key, a);
      PlannedRow(groups, order, reversed, ledger, types, w, key, a);
    }
  }

  // ---- recalculate ----

  /** An account after a recalculation that reversed its periods in the order `starts`. */
  ghost function RecalculatedView(books: Books, goLive: Option<int>, today: int, key: Key, starts: seq<int>): Account
    requires books.year.Valid()
    reads books
  {
    AfterRun(books.year, books.employees, books.types, goLive, today, key,
      AfterReversal(books.year, books.types, key, books.View(key), starts))
  }

  predicate Covered(books: Books, key: Key) {
    var e, t := EmployeeAt(books.employees, key.employeeId), TypeAt(books.types, key.leaveTypeId);
    e.Some? && t.Some? && !e.value.separated && IsPolicyType(t.value)
  }

  function CoveredTerms(books: Books, goLive: Option<int>, key: Key): Terms
    requires books.year.Valid() && Covered(books, key)
  {
    TermsOf(books.year, EmployeeAt(books.employees, key.employeeId).value, TypeAt(books.types, key.leaveTypeId).value,
      goLive)
  }

  /** The policy credits of a covered account are those of an empty policy ledger; an uncovered one has none left. */
  lemma RecalculatedCredits(books: Books, goLive: Option<int>, today: int, key: Key, starts: seq<int>)
    requires books.Valid() && Reversed(books.types, key)
    requires ListsCredited(starts, books.View(key).entries, FrequencyOf(books.types, key), books.year)
    ensures AccruedSum(RecalculatedView(books, goLive, today, key, starts).entries, books.year)
            == if Covered(books, key) then
                 Total(Fresh(CoveredTerms(books, goLive, key), today, books.View(key).entries))
               else 0
  {
    var a, f := books.View(key), FrequencyOf(books.types, key);
    assert SoundAccount(books.year, books.types, key, a);
    if Covered(books, key) {
      RecalculationForgetsHistory(key, CoveredTerms(books, goLive, key), today, a, starts);
    } else {
      UncoveredLosesPolicyCredits(key, f, books.year, a, starts);
    }
  }

  /** A go-live date too far ahead is refused; otherwise every account is reversed and credited again. */
  method RecalculatePolicyCredits(books: Books, newGoLive: Option<int>, today: int)
    returns (accepted: bool, ghost order: Order)
    requires books.Valid() && books.year.Start() <= today < books.year.End()
    modifies books`balances, books`ledger, books`goLive
    ensures books.Valid()
    ensures accepted <==> newGoLive.None? || newGoLive.value - today <= MAX_GO_LIVE_AHEAD_DAYS
    ensures !accepted ==> books.balances == old(books.balances) && books.ledger == old(books.ledger)
                          && books.goLive == old(books.goLive)
    ensures accepted ==> books.goLive == if newGoLive.Some? then newGoLive else old(books.goLive)
    ensures accepted ==> forall key :: Reversed(books.types, key) ==>
              ListsCredited(OrderOf(order, key), old(books.View(key)).entries, FrequencyOf(books.types, key),
                books.year)
    ensures accepted ==> forall key ::
              books.View(key) == old(RecalculatedView(books,
                if newGoLive.Some? then newGoLive else books.goLive, today, key, OrderOf(order, key)))
  {
    order := map[];
    if newGoLive.Some? && newGoLive.value - today > MAX_GO_LIVE_AHEAD_DAYS {
      return false, order;
    }
    accepted := true;
    var balances, ledger;
    balances, ledger, order := PlanRecalculation(books);
    forall key
      ensures SoundAccount(books.year, books.types, key, AccountIn(balances, ledger, key))
    {
      ReversalKeepsSound(books.year, books.types, key, books.View(key), OrderOf(order, key));
    }
    if newGoLive.Some? {
      books.goLive := newGoLive;
    }
    books.Replace(balances, ledger);
    ApplyPolicyDefaults(books, today);
  }

  method PlanRecalculation(books: Books) returns (balances: Balances, ledger: seq<Entry>, ghost order: Order)
    requires books.Valid()
    ensures balances.Keys == books.balances.Keys
    ensures forall key :: AccountIn(balances, ledger, key)
              == AfterReversal(books.year, books.types, key, books.View(key), OrderOf(order, key))
    ensures forall key :: Reversed(books.types, key) ==>
              ListsCredited(OrderOf(order, key), books.View(key).entries, FrequencyOf(books.types, key), books.year)
  {
    var groups := GroupCredits(books.types, books.year, books.ledger);
    var reversed;
    ledger, reversed, order := PlanReversals(books, groups);
    balances := DecrementBalances(books.balances, reversed);
    forall key
      ensures AccountIn(balances, ledger, key)
              == AfterReversal(books.year, books.types, key, books.View(key), OrderOf(order, key))
      ensures Reversed(books.types, key) ==>
                ListsCredited(OrderOf(order, key), books.View(key).entries, FrequencyOf(books.types, key), books.year)
    {
      PlannedIsReversal(groups, order, reversed, ledger, books.types, books.year, key, books.View(key),
        RowOf(balances, key));
    }
  }
}
