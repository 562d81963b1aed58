/**
 * "Recalculate policy credits" on one account: every policy credit of the year is reversed, then
 * the accrual engine runs again. The result forgets how the credits came about.
 */
module LeaveRecalculation {
  import opened Integers
  import opened LeaveAccount
  import opened LeaveEntitlement
  import opened Sequences
  import opened Wrappers

  /** Date of the earliest entry that counts for the period, if there is any. */
  function EarliestDate(entries: seq<Entry>, f: Frequency, w: LeaveYear, start: int): Option<int>
    requires w.Valid()
  {
    if entries == [] then None
    else
      var last := entries[|entries| - 1];
      var earlier := EarliestDate(entries[..|entries| - 1], f, w, start);
      if !CountsFor(last, f, w, start) then earlier
      else if earlier.Some? && earlier.value < last.occurredAt then earlier
      else Some(last.occurredAt)
  }

  function Reversal(key: Key, entries: seq<Entry>, f: Frequency, w: LeaveYear, start: int, running: int): Entry
    requires w.Valid()
  {
    Entry(key, -NetOf(entries, f, w, start), running - NetOf(entries, f, w, start), AccrualReversal,
      EarliestDate(entries, f, w, start).OrElse(start))
  }

  /** One reversal for each of the listed periods, in the listed order. */
  function Reversals(key: Key, entries: seq<Entry>, f: Frequency, w: LeaveYear, starts: seq<int>,
      running: int): seq<Entry>
    requires w.Valid()
  {
    if starts == [] then []
    else
      var front, last := starts[..|starts| - 1], starts[|starts| - 1];
      Reversals(key, entries, f, w, front, running)
      + [Reversal(key, entries, f, w, last, running - SumOfNets(entries, f, w, front))]
  }

  function SumOfNets(entries: seq<Entry>, f: Frequency, w: LeaveYear, starts: seq<int>): int
    requires w.Valid()
  {
    if starts == [] then 0
    else SumOfNets(entries, f, w, starts[..|starts| - 1]) + NetOf(entries, f, w, starts[|starts| - 1])
  }

  /** The account with the credits of the listed periods reversed. */
  function Reverse(key: Key, f: Frequency, w: LeaveYear, a: Account, starts: seq<int>): Account
    requires w.Valid()
  {
    var total := SumOfNets(a.entries, f, w, starts);
    Account(if a.row.None? then None else Some(Balance(a.row.value.accrued - total, a.row.value.used)),
      a.entries + Reversals(key, a.entries, f, w, starts, Available(a.row)))
  }

  /** `starts` lists the periods with a positive net credit, each once, in whatever order. */
  ghost predicate ListsCredited(starts: seq<int>, entries: seq<Entry>, f: Frequency, w: LeaveYear)
    requires w.Valid()
  {
    && (forall i, j :: 0 <= i < j < |starts| ==> starts[i] != starts[j])
    && forall start :: start in starts <==> start in CreditedStarts(entries, f, w)
  }

  lemma ListedAreCredited(starts: seq<int>, entries: seq<Entry>, f: Frequency, w: LeaveYear)
    requires w.Valid() && ListsCredited(starts, entries, f, w)
    ensures Reversible(starts, entries, f, w)
  {
    forall i | 0 <= i < |starts|
      ensures NetOf(entries, f, w, starts[i]) > 0
    {
      assert starts[i] in starts;
    }
  }

  /** A whole recalculation of an account that the policy still covers. */
  function Recalculate(key: Key, t: Terms, today: int, a: Account, starts: seq<int>): Account
    requires t.Valid()
  {
    Run(key, t, today, Reverse(key, t.frequency, t.window, a, starts))
  }

  // ---- Reversing empties every period ----

  lemma {:induction false} EarliestCounts(entries: seq<Entry>, f: Frequency, w: LeaveYear, start: int, e: Entry)
    requires w.Valid() && NetOf(entries, f, w, start) != 0
    requires e.source.AccrualReversal? && Some(e.occurredAt) == EarliestDate(entries, f, w, start)
    ensures CountsFor(e, f, w, start)
  {
    var last := entries[|entries| - 1];
    if !CountsFor(last, f, w, start) || e.occurredAt != last.occurredAt {
      EarliestDateFound(entries, f, w, start);
      var i :| 0 <= i < |entries| && CountsFor(entries[i], f, w, start) && entries[i].occurredAt == e.occurredAt;
    }
  }

  lemma {:induction false} EarliestDateFound(entries: seq<Entry>, f: Frequency, w: LeaveYear, start: int)
    requires w.Valid()
    ensures NetOf(entries, f, w, start) != 0 ==> EarliestDate(entries, f, w, start).Some?
    ensures EarliestDate(entries, f, w, start).Some? ==>
              exists i :: 0 <= i < |entries| && CountsFor(entries[i], f, w, start)
                          && Some(entries[i].occurredAt) == EarliestDate(entries, f, w, start)
  {
    if entries != [] {
      var front := entries[..|entries| - 1];
      EarliestDateFound(front, f, w, start);
      if EarliestDate(front, f, w, start).Some? {
        var i :| 0 <= i < |front| && CountsFor(front[i], f, w, start)
                 && Some(front[i].occurredAt) == EarliestDate(front, f, w, start);
        assert entries[i] == front[i];
      }
    }
  }

  lemma ReversalCounts(key: Key, entries: seq<Entry>, f: Frequency, w: LeaveYear, start: int, running: int, other: int)
    requires w.Valid() && NetOf(entries, f, w, start) != 0
    ensures var e := Reversal(key, entries, f, w, start, running);
            && e.source.AccrualReversal? && e.delta == -NetOf(entries, f, w, start)
            && (CountsFor(e, f, w, other) <==> other == start) && IsPolicyEntry(e, w)
  {
    EarliestDateFound(entries, f, w, start);
    EarliestCounts(entries, f, w, start, Reversal(key, entries, f, w, start, running));
  }

  /** Distinct periods, all of them with a positive net. */
  ghost predicate Reversible(starts: seq<int>, entries: seq<Entry>, f: Frequency, w: LeaveYear)
    requires w.Valid()
  {
    && (forall i, j :: 0 <= i < j < |starts| ==> starts[i] != starts[j])
    && (forall i :: 0 <= i < |starts| ==> NetOf(entries, f, w, starts[i]) > 0)
  }

  lemma ReversibleFront(starts: seq<int>, entries: seq<Entry>, f: Frequency, w: LeaveYear)
    requires w.Valid() && Reversible(starts, entries, f, w) && starts != []
    ensures var front, last := starts[..|starts| - 1], starts[|starts| - 1];
            && Reversible(front, entries, f, w) && NetOf(entries, f, w, last) > 0 && last !in front
            && forall start :: start in starts <==> start in front || start == last
  {
    assert starts == starts[..|starts| - 1] + [starts[|starts| - 1]];
  }

  lemma {:induction false} NetOfReversals(key: Key, entries: seq<Entry>, f: Frequency, w: LeaveYear,
      starts: seq<int>, running: int, start: int)
    requires w.Valid() && Reversible(starts, entries, f, w)
    ensures var es := Reversals(key, entries, f, w, starts, running);
            && NetOf(es, f, w, start) == (if start in starts then -NetOf(entries, f, w, start) else 0)
            && AccruedSum(es, w) == -SumOfNets(entries, f, w, starts)
  {
    if starts != [] {
      var front, last := starts[..|starts| - 1], starts[|starts| - 1];
      ReversibleFront(starts, entries, f, w);
      NetOfReversals(key, entries, f, w, front, running, start);
      var e := Reversal(key, entries, f, w, last, running - SumOfNets(entries, f, w, front));
      ReversalCounts(key, entries, f, w, last, running - SumOfNets(entries, f, w, front), start);
      OneMoreEntry(Reversals(key, entries, f, w, front, running), e, f, w, start);
    }
  }

  lemma OneMoreEntry(before: seq<Entry>, e: Entry, f: Frequency, w: LeaveYear, start: int)
    requires w.Valid()
    ensures NetOf(before + [e], f, w, start)
            == NetOf(before, f, w, start) + if CountsFor(e, f, w, start) then e.delta else 0
    ensures AccruedSum(before + [e], w) == AccruedSum(before, w) + if IsPolicyEntry(e, w) then e.delta else 0
  {
    NetOfConcat(before, [e], f, w, start);
    NetOfOne(e, f, w, start);
  }

  lemma {:induction false} ReversalsAreReversals(key: Key, entries: seq<Entry>, f: Frequency, w: LeaveYear,
      starts: seq<int>, running: int)
    requires w.Valid()
    ensures var es := Reversals(key, entries, f, w, starts, running);
            |es| == |starts| && forall i :: 0 <= i < |es| ==> es[i].source.AccrualReversal?
  {
    if starts != [] {
      ReversalsAreReversals(key, entries, f, w, starts[..|starts| - 1], running);
    }
  }

  /** Policy credits add up over the periods of the year. */
  lemma {:induction false} AccruedIsSumOfNets(entries: seq<Entry>, f: Frequency, w: LeaveYear)
    requires w.Valid()
    requires forall start :: start in PeriodStarts(f, w) ==> NetOf(entries, f, w, start) == 0
    ensures AccruedSum(entries, w) == 0
  {
    AccruedSplits(entries, f, w, |PeriodsOf(f, w)|);
    NetsVanish(entries, f, w, |PeriodsOf(f, w)|);
  }

  /** Sum of the nets of the first `n` periods. */
  ghost function NetsUpTo(entries: seq<Entry>, f: Frequency, w: LeaveYear, n: nat): int
    requires w.Valid() && n <= |PeriodsOf(f, w)|
  {
    if n == 0 then 0 else NetsUpTo(entries, f, w, n - 1) + NetOf(entries, f, w, PeriodsOf(f, w)[n - 1].start)
  }

  lemma {:induction false} NetsVanish(entries: seq<Entry>, f: Frequency, w: LeaveYear, n: nat)
    requires w.Valid() && n <= |PeriodsOf(f, w)|
    requires forall start :: start in PeriodStarts(f, w) ==> NetOf(entries, f, w, start) == 0
    ensures NetsUpTo(entries, f, w, n) == 0
  {
    if n > 0 {
      NetsVanish(entries, f, w, n - 1);
      assert PeriodsOf(f, w)[n - 1] in PeriodsOf(f, w);
    }
  }

  /** An entry counts for exactly one period, and adds its delta once. */
  lemma {:induction false} NetsOfOneMore(entries: seq<Entry>, e: Entry, f: Frequency, w: LeaveYear, n: nat)
    requires w.Valid() && n <= |PeriodsOf(f, w)|
    ensures NetsUpTo(entries + [e], f, w, n)
            == NetsUpTo(entries, f, w, n)
               + if exists k :: 0 <= k < n && CountsFor(e, f, w, PeriodsOf(f, w)[k].start) then e.delta else 0
  {
    if n > 0 {
      NetsOfOneMore(entries, e, f, w, n - 1);
      PeriodsTile(f, w);
      assert (entries + [e])[..|entries|] == entries;
      var start := PeriodsOf(f, w)[n - 1].start;
      forall k | 0 <= k < n - 1 && CountsFor(e, f, w, PeriodsOf(f, w)[k].start)
        ensures !CountsFor(e, f, w, start)
      {
        assert PeriodsOf(f, w)[k].end <= start;
      }
    }
  }

  lemma {:induction false} AccruedSplits(entries: seq<Entry>, f: Frequency, w: LeaveYear, n: nat)
    requires w.Valid() && n == |PeriodsOf(f, w)|
    ensures AccruedSum(entries, w) == NetsUpTo(entries, f, w, n)
  {
    if entries == [] {
      EmptyNets(f, w, n);
    } else {
      var front, last := entries[..|entries| - 1], entries[|entries| - 1];
      AccruedSplits(front, f, w, n);
      NetsOfOneMore(front, last, f, w, n);
      assert front + [last] == entries;
      if IsPolicyEntry(last, w) {
        EveryDayHasPeriod(f, w, last.occurredAt);
        var p := PeriodContaining(f, w, last.occurredAt).value;
        var k :| 0 <= k < n && PeriodsOf(f, w)[k] == p;
        assert CountsFor(last, f, w, PeriodsOf(f, w)[k].start);
      }
    }
  }

  lemma {:induction false} EmptyNets(f: Frequency, w: LeaveYear, n: nat)
    requires w.Valid() && n <= |PeriodsOf(f, w)|
    ensures NetsUpTo([], f, w, n) == 0
  {
    if n > 0 {
      EmptyNets(f, w, n - 1);
    }
  }

  lemma {:induction false} NetNeedsPeriod(entries: seq<Entry>, f: Frequency, w: LeaveYear, start: int)
    requires w.Valid() && start !in PeriodStarts(f, w)
    ensures NetOf(entries, f, w, start) == 0
  {
    if entries != [] {
      NetNeedsPeriod(entries[..|entries| - 1], f, w, start);
      var last := entries[|entries| - 1];
      if CountsFor(last, f, w, start) {
        EveryDayHasPeriod(f, w, last.occurredAt);
      }
    }
  }

  /** Reversing leaves every period, and the year, without policy credit. */
  lemma ReverseEmpties(key: Key, f: Frequency, w: LeaveYear, a: Account, starts: seq<int>)
    requires w.Valid() && NetsNonNegative(a.entries, f, w) && ListsCredited(starts, a.entries, f, w)
    ensures var b := Reverse(key, f, w, a, starts);
            && (forall start :: NetOf(b.entries, f, w, start) == 0)
            && AccruedSum(b.entries, w) == 0 && CreditedStarts(b.entries, f, w) == {}
            && HasOpening(b.entries, w) == HasOpening(a.entries, w)
  {
    var b := Reverse(key, f, w, a, starts);
    var added := Reversals(key, a.entries, f, w, starts, Available(a.row));
    ListedAreCredited(starts, a.entries, f, w);
    forall start
      ensures NetOf(b.entries, f, w, start) == 0
    {
      NetOfConcat(a.entries, added, f, w, start);
      NetOfReversals(key, a.entries, f, w, starts, Available(a.row), start);
      if start !in PeriodStarts(f, w) {
        NetNeedsPeriod(a.entries, f, w, start);
      }
    }
    NetOfReversals(key, a.entries, f, w, starts, Available(a.row), 0);
    ReversalsAreReversals(key, a.entries, f, w, starts, Available(a.row));
    HasOpeningOfConcat(a.entries, added, w);
    AccruedIsSumOfNets(b.entries, f, w);
  }

  lemma {:induction false} ReverseReconciled(key: Key, f: Frequency, w: LeaveYear, a: Account, starts: seq<int>)
    requires w.Valid() && Reconciled(a) && (starts != [] ==> a.row.Some?)
    ensures Reconciled(Reverse(key, f, w, a, starts))
    ensures Available(Reverse(key, f, w, a, starts).row) == Available(a.row) - SumOfNets(a.entries, f, w, starts)
  {
    hide NetOf;
    hide EarliestDate;
    var b := Reverse(key, f, w, a, starts);
    if starts == [] {
      assert a.entries + [] == a.entries;
      assert b == a;
    } else {
      var front, last := starts[..|starts| - 1], starts[|starts| - 1];
      ReverseReconciled(key, f, w, a, front);
      var before := Reverse(key, f, w, a, front);
      var e := Reversal(key, a.entries, f, w, last, Available(a.row) - SumOfNets(a.entries, f, w, front));
      ConcatAssociates(a.entries, Reversals(key, a.entries, f, w, front, Available(a.row)), [e]);
      assert b.entries == before.entries + [e];
      assert SumOfNets(a.entries, f, w, starts) == SumOfNets(a.entries, f, w, front) - e.delta;
      assert b.row.Some? && Available(b.row) == Available(before.row) + e.delta && e.balanceAfter == Available(b.row);
      PostKeepsReconciled(before, b.row, e);
    }
  }

  // ---- Recalculation forgets history ----

  /** What the engine would credit with no policy entry in the ledger. */
  function Fresh(t: Terms, today: int, entries: seq<Entry>): seq<Credit>
    requires t.Valid()
  {
    CreditsOwed(PolicyOf(t, entries), today, {}, 0)
  }

  lemma {:induction false} SumOfNetsIsAccrued(key: Key, f: Frequency, w: LeaveYear, a: Account, starts: seq<int>)
    requires w.Valid() && NetsNonNegative(a.entries, f, w) && ListsCredited(starts, a.entries, f, w)
    ensures SumOfNets(a.entries, f, w, starts) == AccruedSum(a.entries, w)
  {
    var added := Reversals(key, a.entries, f, w, starts, Available(a.row));
    ReverseEmpties(key, f, w, a, starts);
    ListedAreCredited(starts, a.entries, f, w);
    NetOfReversals(key, a.entries, f, w, starts, Available(a.row), 0);
    NetOfConcat(a.entries, added, f, w, 0);
  }

  lemma CreditedHasRow(f: Frequency, w: LeaveYear, a: Account, starts: seq<int>)
    requires w.Valid() && Reconciled(a) && ListsCredited(starts, a.entries, f, w)
    ensures starts != [] ==> a.row.Some?
  {
    ListedAreCredited(starts, a.entries, f, w);
    if starts != [] {
      assert NetOf(a.entries, f, w, starts[0]) > 0;
    }
  }

  /** After a recalculation each period nets to what the engine credits from an empty policy ledger. */
  lemma RecalculationForgetsHistory(key: Key, t: Terms, today: int, a: Account, starts: seq<int>)
    requires t.Valid() && Reconciled(a)
    requires NetsNonNegative(a.entries, t.frequency, t.window)
    requires ListsCredited(starts, a.entries, t.frequency, t.window)
    ensures var after := Recalculate(key, t, today, a, starts);
            var clean := Fresh(t, today, a.entries);
            && Reconciled(after) && NetsNonNegative(after.entries, t.frequency, t.window)
            && (forall start :: NetOf(after.entries, t.frequency, t.window, start) == CreditOf(clean, start))
            && AccruedSum(after.entries, t.window) == Total(clean)
            && HasOpening(after.entries, t.window) == HasOpening(a.entries, t.window)
            && Available(after.row) == Available(a.row) - AccruedSum(a.entries, t.window) + Total(clean)
  {
    var f, w := t.frequency, t.window;
    var reversed := Reverse(key, f, w, a, starts);
    CreditedHasRow(f, w, a, starts);
    ReverseEmpties(key, f, w, a, starts);
    ReverseReconciled(key, f, w, a, starts);
    SumOfNetsIsAccrued(key, f, w, a, starts);
    assert Owed(t, today, reversed.entries) == Fresh(t, today, a.entries);
    OwedIsWellDated(t, today, reversed.entries);
    ReadsBackCredits(key, reversed, Owed(t, today, reversed.entries), f, w);
    PostCreditsReconciled(key, reversed, Owed(t, today, reversed.entries), Accrual);
  }

  /** Recalculating again changes no balance. */
  lemma SecondRecalculationChangesNothing(key: Key, t: Terms, today: int, a: Account, starts: seq<int>, again: seq<int>)
    requires t.Valid() && Reconciled(a)
    requires NetsNonNegative(a.entries, t.frequency, t.window)
    requires ListsCredited(starts, a.entries, t.frequency, t.window)
    requires ListsCredited(again, Recalculate(key, t, today, a, starts).entries, t.frequency, t.window)
    ensures var after := Recalculate(key, t, today, a, starts);
            Available(Recalculate(key, t, today, after, again).row) == Available(after.row)
  {
    var after := Recalculate(key, t, today, a, starts);
    RecalculationForgetsHistory(key, t, today, a, starts);
    RecalculationForgetsHistory(key, t, today, after, again);
  }

  /** An account that the policy no longer covers keeps nothing of its policy credits. */
  lemma UncoveredLosesPolicyCredits(key: Key, f: Frequency, w: LeaveYear, a: Account, starts: seq<int>)
    requires w.Valid() && Reconciled(a) && NetsNonNegative(a.entries, f, w) && ListsCredited(starts, a.entries, f, w)
    ensures var after := Reverse(key, f, w, a, starts);
            && Reconciled(after) && NetsNonNegative(after.entries, f, w) && AccruedSum(after.entries, w) == 0
            && Available(after.row) == Available(a.row) - AccruedSum(a.entries, w)
  {
    CreditedHasRow(f, w, a, starts);
    ReverseEmpties(key, f, w, a, starts);
    ReverseReconciled(key, f, w, a, starts);
    SumOfNetsIsAccrued(key, f, w, a, starts);
  }

  lemma {:induction false} CreditEntriesAreAccruals(key: Key, credits: seq<Credit>, running: int)
    ensures forall e :: e in CreditEntries(key, credits, running, Accrual) ==> e.source.Accrual?
    decreases |credits|
  {
    if credits != [] {
      CreditEntriesAreAccruals(key, credits[1..], running + credits[0].amount);
    }
  }

  /** Opening, HR, carry-forward, comp-off and request entries, and days taken, are never touched. */
  lemma RecalculationTouchesOnlyPolicyCredits(key: Key, t: Terms, today: int, a: Account, starts: seq<int>)
    requires t.Valid()
    ensures var after := Recalculate(key, t, today, a, starts);
            && a.entries <= after.entries
            && (forall e :: e in after.entries[|a.entries|..] ==> e.source.Accrual? || e.source.AccrualReversal?)
            && (a.row.Some? ==> after.row.Some? && after.row.value.used == a.row.value.used)
  {
    var reversed := Reverse(key, t.frequency, t.window, a, starts);
    var back := Reversals(key, a.entries, t.frequency, t.window, starts, Available(a.row));
    var again := CreditEntries(key, Owed(t, today, reversed.entries), Available(reversed.row), Accrual);
    var after := Recalculate(key, t, today, a, starts);
    ReversalsAreReversals(key, a.entries, t.frequency, t.window, starts, Available(a.row));
    CreditEntriesAreAccruals(key, Owed(t, today, reversed.entries), Available(reversed.row));
    if Owed(t, today, reversed.entries) == [] {
      assert after.entries == a.entries + back;
    } else {
      assert after.entries == a.entries + (back + again);
      assert after.entries[|a.entries|..] == back + again;
    }
  }

  // ---- When a period has been reversed by more than it was credited ----

  /** Sum of the negative nets of the first `n` periods. */
  function NegativesUpTo(entries: seq<Entry>, f: Frequency, w: LeaveYear, n: nat): (sum: int)
    requires w.Valid() && n <= |PeriodsOf(f, w)|
    ensures sum <= 0
  {
    if n == 0 then 0
    else NegativesUpTo(entries, f, w, n - 1) + Min(NetOf(entries, f, w, PeriodsOf(f, w)[n - 1].start), 0)
  }

  /** What has been reversed in excess over the year, as a negative number. */
  function Excess(entries: seq<Entry>, f: Frequency, w: LeaveYear): int
    requires w.Valid()
  {
    NegativesUpTo(entries, f, w, |PeriodsOf(f, w)|)
  }

  lemma {:induction false} NegativesAreNets(before: seq<Entry>, after: seq<Entry>, f: Frequency, w: LeaveYear, n: nat)
    requires w.Valid() && n <= |PeriodsOf(f, w)|
    requires forall start ::
      start in PeriodStarts(f, w) ==> NetOf(after, f, w, start) == Min(NetOf(before, f, w, start), 0)
    ensures NetsUpTo(after, f, w, n) == NegativesUpTo(before, f, w, n)
  {
    if n > 0 {
      NegativesAreNets(before, after, f, w, n - 1);
      assert PeriodsOf(f, w)[n - 1] in PeriodsOf(f, w);
    }
  }

  lemma {:induction false} ExcessIsNone(entries: seq<Entry>, f: Frequency, w: LeaveYear, n: nat)
    requires w.Valid() && n <= |PeriodsOf(f, w)|
    ensures NegativesUpTo(entries, f, w, n) == 0 <==>
            forall k :: 0 <= k < n ==> NetOf(entries, f, w, PeriodsOf(f, w)[k].start) >= 0
  {
    if n > 0 {
      ExcessIsNone(entries, f, w, n - 1);
    }
  }

  /** There is no excess exactly when no period nets below zero. */
  lemma NoExcessIsNonNegative(entries: seq<Entry>, f: Frequency, w: LeaveYear)
    requires w.Valid()
    ensures Excess(entries, f, w) == 0 <==> NetsNonNegative(entries, f, w)
  {
    var n := |PeriodsOf(f, w)|;
    ExcessIsNone(entries, f, w, n);
    if Excess(entries, f, w) == 0 {
      forall start
        ensures NetOf(entries, f, w, start) >= 0
      {
        if start in PeriodStarts(f, w) {
          var p :| p in PeriodsOf(f, w) && p.start == start;
          var k :| 0 <= k < n && PeriodsOf(f, w)[k] == p;
        } else {
          NetNeedsPeriod(entries, f, w, start);
        }
      }
    }
  }

  /** Reversing leaves the excess, and no credited period, whatever the nets were. */
  lemma ReverseLeavesExcess(key: Key, f: Frequency, w: LeaveYear, a: Account, starts: seq<int>)
    requires w.Valid() && ListsCredited(starts, a.entries, f, w)
    ensures var b := Reverse(key, f, w, a, starts);
            && AccruedSum(b.entries, w) == Excess(a.entries, f, w)
            && CreditedStarts(b.entries, f, w) == {}
            && HasOpening(b.entries, w) == HasOpening(a.entries, w)
  {
    var b := Reverse(key, f, w, a, starts);
    var added := Reversals(key, a.entries, f, w, starts, Available(a.row));
    ListedAreCredited(starts, a.entries, f, w);
    forall start | start in PeriodStarts(f, w)
      ensures NetOf(b.entries, f, w, start) == Min(NetOf(a.entries, f, w, start), 0)
    {
      NetOfConcat(a.entries, added, f, w, start);
      NetOfReversals(key, a.entries, f, w, starts, Available(a.row), start);
    }
    ReversalsAreReversals(key, a.entries, f, w, starts, Available(a.row));
    HasOpeningOfConcat(a.entries, added, w);
    AccruedSplits(b.entries, f, w, |PeriodsOf(f, w)|);
    NegativesAreNets(a.entries, b.entries, f, w, |PeriodsOf(f, w)|);
  }

  /** Of whatever account, a recalculation leaves as policy credit the quota, or what was earned less the excess. */
  lemma RecalculatedCredit(key: Key, t: Terms, today: int, a: Account, starts: seq<int>)
    requires t.Valid() && t.quota > 0 && ListsCredited(starts, a.entries, t.frequency, t.window)
    ensures var earned := EarnedBy(PolicyOf(t, a.entries), today);
            && AccruedSum(Recalculate(key, t, today, a, starts).entries, t.window)
               == Min(t.quota, earned + Excess(a.entries, t.frequency, t.window))
            && Total(Fresh(t, today, a.entries)) == Min(t.quota, earned)
  {
    var f, w := t.frequency, t.window;
    var reversed := Reverse(key, f, w, a, starts);
    ReverseLeavesExcess(key, f, w, a, starts);
    OwedIsEarned(PolicyOf(t, a.entries), today, Excess(a.entries, f, w));
    OwedIsEarned(PolicyOf(t, a.entries), today, 0);
    OwedIsWellDated(t, today, reversed.entries);
    ReadsBackCredits(key, reversed, Owed(t, today, reversed.entries), f, w);
  }

  /**
   * Recalculating leaves the policy credit of an empty policy ledger exactly when nothing was reversed in excess
   * before, or when what was earned fills the quota even so.
   */
  lemma RecalculationForgetsExactly(key: Key, t: Terms, today: int, a: Account, starts: seq<int>)
    requires t.Valid() && t.quota > 0 && ListsCredited(starts, a.entries, t.frequency, t.window)
    ensures var excess := Excess(a.entries, t.frequency, t.window);
            var earned := EarnedBy(PolicyOf(t, a.entries), today);
            AccruedSum(Recalculate(key, t, today, a, starts).entries, t.window) == Total(Fresh(t, today, a.entries))
            <==> excess == 0 || earned + excess >= t.quota
  {
    RecalculatedCredit(key, t, today, a, starts);
  }
}
