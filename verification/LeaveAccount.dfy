/**
 * One employee's account for one leave type and leave year: the balance row and the ledger entries
 * posted to it. The accrual engine and the policy recalculation, as what they do to an account.
 */
module LeaveAccount {
  import opened Integers
  import opened LeaveEntitlement
  import opened Sequences
  import opened Wrappers

  datatype Source =
    | Accrual | CarryForward | RequestApproved | RequestCancelled | HrAdjustment
    | CompOffCredit | OpeningBalance | EventGrant | AccrualReversal

  /** Whose balance of which leave type. */
  datatype Key = Key(employeeId: string, leaveTypeId: string)

  /** A row of the append-only ledger; `delta` is the change of the available balance. */
  datatype Entry = Entry(key: Key, delta: int, balanceAfter: int, source: Source, occurredAt: int)

  datatype Balance = Balance(accrued: int, used: int)

  datatype Account = Account(row: Option<Balance>, entries: seq<Entry>)

  /** Days available; an account without a balance row has none. */
  function Available(row: Option<Balance>): int {
    if row.None? then 0 else row.value.accrued - row.value.used
  }

  function Sum(entries: seq<Entry>): int {
    if entries == [] then 0 else Sum(entries[..|entries| - 1]) + entries[|entries| - 1].delta
  }

  // ---- Reconciliation ----

  /** Each entry records the balance after it: the sum of all entries up to it. */
  ghost predicate RunningSums(entries: seq<Entry>) {
    entries == [] ||
    (RunningSums(entries[..|entries| - 1]) && entries[|entries| - 1].balanceAfter == Sum(entries))
  }

  /** Each entry records the running sum, and the row agrees with the sum of everything posted. */
  ghost predicate Reconciled(a: Account) {
    && (a.row.None? ==> a.entries == [])
    && Available(a.row) == Sum(a.entries)
    && RunningSums(a.entries)
  }

  lemma {:induction false} BalanceAfterIsPrefixSum(entries: seq<Entry>, i: nat)
    requires RunningSums(entries) && i < |entries|
    ensures entries[i].balanceAfter == Sum(entries[..i + 1])
  {
    if i == |entries| - 1 {
      assert entries[..i + 1] == entries;
    } else {
      BalanceAfterIsPrefixSum(entries[..|entries| - 1], i);
      assert entries[..|entries| - 1][..i + 1] == entries[..i + 1];
    }
  }

  /** Posting an entry with the change of the row, and the new balance on it, keeps an account reconciled. */
  lemma PostKeepsReconciled(a: Account, row: Option<Balance>, e: Entry)
    requires Reconciled(a)
    ensures Reconciled(Account(row, a.entries + [e]))
            <==> row.Some? && Available(row) == Available(a.row) + e.delta && e.balanceAfter == Available(row)
  {
    assert (a.entries + [e])[..|a.entries|] == a.entries;
  }

  // ---- Reading the ledger ----

  predicate IsPolicyEntry(e: Entry, w: LeaveYear)
    requires |w.bounds| == 13
  {
    (e.source.Accrual? || e.source.AccrualReversal?) && w.Start() <= e.occurredAt < w.End()
  }

  function AccruedSum(entries: seq<Entry>, w: LeaveYear): int
    requires w.Valid()
  {
    if entries == [] then 0
    else
      var last := entries[|entries| - 1];
      AccruedSum(entries[..|entries| - 1], w) + if IsPolicyEntry(last, w) then last.delta else 0
  }

  /** Whether a policy entry counts towards the period starting at `start`. */
  predicate CountsFor(e: Entry, f: Frequency, w: LeaveYear, start: int)
    requires w.Valid()
  {
    && IsPolicyEntry(e, w)
    && var p := PeriodContaining(f, w, e.occurredAt); p.Some? && p.value.start == start
  }

  /** Net policy credit of a period: credits less reversals. */
  function NetOf(entries: seq<Entry>, f: Frequency, w: LeaveYear, start: int): int
    requires w.Valid()
  {
    if entries == [] then 0
    else
      var last := entries[|entries| - 1];
      NetOf(entries[..|entries| - 1], f, w, start) + if CountsFor(last, f, w, start) then last.delta else 0
  }

  function PeriodStarts(f: Frequency, w: LeaveYear): set<int>
    requires w.Valid()
  {
    set p | p in PeriodsOf(f, w) :: p.start
  }

  function CreditedStarts(entries: seq<Entry>, f: Frequency, w: LeaveYear): set<int>
    requires w.Valid()
  {
    set start | start in PeriodStarts(f, w) && NetOf(entries, f, w, start) > 0
  }

  predicate HasOpening(entries: seq<Entry>, w: LeaveYear)
    requires w.Valid()
  {
    exists i :: 0 <= i < |entries| && entries[i].source.OpeningBalance? && w.Start() <= entries[i].occurredAt < w.End()
  }

  /** No period has been reversed by more than it was credited. */
  ghost predicate NetsNonNegative(entries: seq<Entry>, f: Frequency, w: LeaveYear)
    requires w.Valid()
  {
    forall start :: NetOf(entries, f, w, start) >= 0
  }

  // ---- The accrual engine on one account ----

  /** The policy that applies to an account, apart from what its ledger says. */
  datatype Terms = Terms(frequency: Frequency, quota: int, window: LeaveYear, effectiveStart: int) {
    ghost predicate Valid() {
      window.Valid() && effectiveStart >= window.Start()
    }
  }

  function PolicyOf(t: Terms, entries: seq<Entry>): Policy
    requires t.window.Valid()
  {
    Policy(t.frequency, t.quota, t.window, t.effectiveStart, HasOpening(entries, t.window))
  }

  /** The credits the engine owes an account with these entries. */
  function Owed(t: Terms, today: int, entries: seq<Entry>): seq<Credit>
    requires t.Valid()
  {
    CreditsOwed(PolicyOf(t, entries), today,
      CreditedStarts(entries, t.frequency, t.window), AccruedSum(entries, t.window))
  }

  /** The credits as ledger entries, each with the balance after it. */
  function CreditEntries(key: Key, credits: seq<Credit>, running: int, source: Source): seq<Entry> {
    if credits == [] then []
    else
      [Entry(key, credits[0].amount, running + credits[0].amount, source, credits[0].occurredAt)]
      + CreditEntries(key, credits[1..], running + credits[0].amount, source)
  }

  function WithAccrued(row: Option<Balance>, days: int): Balance {
    if row.None? then Balance(days, 0) else Balance(row.value.accrued + days, row.value.used)
  }

  /** Posts a list of credits: the row grows by their total, the ledger by one entry each. */
  function PostCredits(key: Key, a: Account, credits: seq<Credit>, source: Source): Account {
    if credits == [] then a
    else
      Account(Some(WithAccrued(a.row, Total(credits))),
        a.entries + CreditEntries(key, credits, Available(a.row), source))
  }

  /** One run of the accrual engine on `today`. */
  function Run(key: Key, t: Terms, today: int, a: Account): Account
    requires t.Valid()
  {
    PostCredits(key, a, Owed(t, today, a.entries), Accrual)
  }

  lemma {:induction false} CreditEntriesConcat(key: Key, a: seq<Credit>, b: seq<Credit>, running: int, source: Source)
    ensures CreditEntries(key, a + b, running, source)
            == CreditEntries(key, a, running, source) + CreditEntries(key, b, running + Total(a), source)
    decreases |a|
  {
    if a == [] {
      assert a + b == b;
      assert [] + CreditEntries(key, b, running, source) == CreditEntries(key, b, running, source);
    } else {
      TailOfConcat(a, b);
      var after := running + a[0].amount;
      CreditEntriesConcat(key, a[1..], b, after, source);
      ConcatAssociates([Entry(key, a[0].amount, after, source, a[0].occurredAt)],
        CreditEntries(key, a[1..], after, source), CreditEntries(key, b, running + Total(a), source));
    }
  }

  /** Posting two lists one after the other is posting their concatenation. */
  lemma PostInTwoParts(key: Key, a: Account, first: seq<Credit>, second: seq<Credit>, source: Source)
    ensures PostCredits(key, PostCredits(key, a, first, source), second, source)
            == PostCredits(key, a, first + second, source)
  {
    TotalOfConcat(first, second);
    if first == [] {
      assert first + second == second;
    } else if second == [] {
      assert first + second == first;
    } else {
      CreditEntriesConcat(key, first, second, Available(a.row), source);
      ConcatAssociates(a.entries, CreditEntries(key, first, Available(a.row), source),
        CreditEntries(key, second, Available(a.row) + Total(first), source));
    }
  }

  lemma {:induction false} PostCreditsReconciled(key: Key, a: Account, credits: seq<Credit>, source: Source)
    requires Reconciled(a)
    ensures Reconciled(PostCredits(key, a, credits, source))
    ensures Available(PostCredits(key, a, credits, source).row) == Available(a.row) + Total(credits)
    decreases |credits|
  {
    if credits != [] {
      var front, last := credits[..|credits| - 1], credits[|credits| - 1];
      assert credits == front + [last];
      PostCreditsReconciled(key, a, front, source);
      PostInTwoParts(key, a, front, [last], source);
      var before := PostCredits(key, a, front, source);
      OneMoreCredit(last, []);
      var e := Entry(key, last.amount, Available(before.row) + last.amount, source, last.occurredAt);
      assert CreditEntries(key, [last], Available(before.row), source) == [e];
      PostKeepsReconciled(before, Some(WithAccrued(before.row, last.amount)), e);
    }
  }

  // ---- What posted credits do to the reading of the ledger ----

  lemma {:induction false} NetOfConcat(a: seq<Entry>, b: seq<Entry>, f: Frequency, w: LeaveYear, start: int)
    requires w.Valid()
    ensures NetOf(a + b, f, w, start) == NetOf(a, f, w, start) + NetOf(b, f, w, start)
    ensures AccruedSum(a + b, w) == AccruedSum(a, w) + AccruedSum(b, w)
    decreases |b|
  {
    if b == [] {
      assert a + b == a;
    } else {
      NetOfConcat(a, b[..|b| - 1], f, w, start);
      FrontOfConcat(a, b);
    }
  }

  lemma NetOfOne(e: Entry, f: Frequency, w: LeaveYear, start: int)
    requires w.Valid()
    ensures NetOf([e], f, w, start) == if CountsFor(e, f, w, start) then e.delta else 0
    ensures AccruedSum([e], w) == if IsPolicyEntry(e, w) then e.delta else 0
  {
    assert [e][..0] == [];
  }

  lemma HasOpeningOfConcat(a: seq<Entry>, b: seq<Entry>, w: LeaveYear)
    requires w.Valid() && forall i :: 0 <= i < |b| ==> !b[i].source.OpeningBalance?
    ensures HasOpening(a + b, w) == HasOpening(a, w)
  {
    if HasOpening(a, w) {
      var i :| 0 <= i < |a| && a[i].source.OpeningBalance? && w.Start() <= a[i].occurredAt < w.End();
      assert (a + b)[i] == a[i];
    }
  }

  /** Sum of the credits of one period. */
  function CreditOf(credits: seq<Credit>, start: int): int {
    if credits == [] then 0
    else (if credits[0].periodStart == start then credits[0].amount else 0) + CreditOf(credits[1..], start)
  }

  /** Every credit is positive and dated in the period it names. */
  ghost predicate WellDated(credits: seq<Credit>, f: Frequency, w: LeaveYear)
    requires w.Valid()
  {
    forall c :: c in credits ==> exists k: nat :: InPeriod(c, PeriodsOf(f, w), k)
  }

  lemma WellDatedEntry(c: Credit, f: Frequency, w: LeaveYear, start: int, e: Entry)
    requires w.Valid() && exists k: nat :: InPeriod(c, PeriodsOf(f, w), k)
    requires e.occurredAt == c.occurredAt && e.source.Accrual?
    ensures IsPolicyEntry(e, w) && (CountsFor(e, f, w, start) <==> c.periodStart == start)
    ensures c.periodStart in PeriodStarts(f, w) && c.amount > 0
  {
    var k: nat :| InPeriod(c, PeriodsOf(f, w), k);
    PeriodsTile(f, w);
    PeriodOfDate(f, w, k, c.occurredAt);
    assert PeriodsOf(f, w)[k] in PeriodsOf(f, w);
  }

  lemma {:induction false} NetOfCredits(key: Key, credits: seq<Credit>, running: int, f: Frequency, w: LeaveYear,
      start: int)
    requires w.Valid() && WellDated(credits, f, w)
    ensures var es := CreditEntries(key, credits, running, Accrual);
            && NetOf(es, f, w, start) == CreditOf(credits, start)
            && AccruedSum(es, w) == Total(credits)
            && forall i :: 0 <= i < |es| ==> es[i].source.Accrual?
    decreases |credits|
  {
    if credits != [] {
      var c := credits[0];
      var e := Entry(key, c.amount, running + c.amount, Accrual, c.occurredAt);
      assert c in credits && forall d :: d in credits[1..] ==> d in credits;
      WellDatedEntry(c, f, w, start, e);
      NetOfCredits(key, credits[1..], running + c.amount, f, w, start);
      NetOfConcat([e], CreditEntries(key, credits[1..], running + c.amount, Accrual), f, w, start);
      NetOfOne(e, f, w, start);
    }
  }

  lemma {:induction false} CreditOfSigns(credits: seq<Credit>, start: int)
    requires forall c :: c in credits ==> c.amount > 0
    ensures CreditOf(credits, start) >= 0
    ensures CreditOf(credits, start) > 0 <==> start in StartsOf(credits)
    decreases |credits|
  {
    if credits != [] {
      CreditOfSigns(credits[1..], start);
      assert credits[0] in credits;
      assert forall c :: c in credits <==> c == credits[0] || c in credits[1..];
    }
  }

  lemma OwedIsWellDated(t: Terms, today: int, entries: seq<Entry>)
    requires t.Valid()
    ensures WellDated(Owed(t, today, entries), t.frequency, t.window)
  {
    OwedFallInPeriods(PolicyOf(t, entries), today,
      CreditedStarts(entries, t.frequency, t.window), AccruedSum(entries, t.window));
  }

  lemma PositiveCredits(credits: seq<Credit>, f: Frequency, w: LeaveYear)
    requires w.Valid() && WellDated(credits, f, w)
    ensures forall c :: c in credits ==> c.amount > 0 && c.periodStart in PeriodStarts(f, w)
  {
    forall c | c in credits
      ensures c.amount > 0 && c.periodStart in PeriodStarts(f, w)
    {
      WellDatedEntry(c, f, w, 0, Entry(Key("", ""), 0, 0, Accrual, c.occurredAt));
    }
  }

  /** After posting credits the engine reads them back: per period, in total, and as credited periods. */
  lemma ReadsBackCredits(key: Key, a: Account, credits: seq<Credit>, f: Frequency, w: LeaveYear)
    requires w.Valid() && WellDated(credits, f, w)
    ensures var es := PostCredits(key, a, credits, Accrual).entries;
            && (forall start :: NetOf(es, f, w, start) == NetOf(a.entries, f, w, start) + CreditOf(credits, start))
            && AccruedSum(es, w) == AccruedSum(a.entries, w) + Total(credits)
            && HasOpening(es, w) == HasOpening(a.entries, w)
            && (NetsNonNegative(a.entries, f, w) ==>
                  NetsNonNegative(es, f, w)
                  && CreditedStarts(es, f, w) == CreditedStarts(a.entries, f, w) + StartsOf(credits))
  {
    if credits != [] {
      var added := CreditEntries(key, credits, Available(a.row), Accrual);
      PositiveCredits(credits, f, w);
      forall start
        ensures NetOf(a.entries + added, f, w, start) == NetOf(a.entries, f, w, start) + CreditOf(credits, start)
        ensures CreditOf(credits, start) >= 0 && (CreditOf(credits, start) > 0 <==> start in StartsOf(credits))
      {
        NetOfConcat(a.entries, added, f, w, start);
        NetOfCredits(key, credits, Available(a.row), f, w, start);
        CreditOfSigns(credits, start);
      }
      NetOfConcat(a.entries, added, f, w, 0);
      NetOfCredits(key, credits, Available(a.row), f, w, 0);
      HasOpeningOfConcat(a.entries, added, w);
    } else {
      assert forall start :: CreditOf(credits, start) == 0;
      assert StartsOf(credits) == {};
    }
  }

  // ---- Missed and repeated days do not matter ----

  /** After a run the engine owes what the calculator owes with that run's credits counted in. */
  lemma OwedAfterRun(key: Key, t: Terms, before: int, today: int, a: Account)
    requires t.Valid() && NetsNonNegative(a.entries, t.frequency, t.window)
    ensures var posted := Owed(t, before, a.entries);
            Owed(t, today, Run(key, t, before, a).entries)
            == CreditsOwed(PolicyOf(t, a.entries), today,
                 CreditedStarts(a.entries, t.frequency, t.window) + StartsOf(posted),
                 AccruedSum(a.entries, t.window) + Total(posted))
    ensures NetsNonNegative(Run(key, t, before, a).entries, t.frequency, t.window)
  {
    hide CreditsOwed;
    OwedIsWellDated(t, before, a.entries);
    ReadsBackCredits(key, a, Owed(t, before, a.entries), t.frequency, t.window);
  }

  /** What is owed later is what was owed earlier, then what is owed once that is posted. */
  lemma OwedInTwoParts(key: Key, t: Terms, before: int, today: int, a: Account)
    requires t.Valid() && before <= today && NetsNonNegative(a.entries, t.frequency, t.window)
    ensures Owed(t, today, a.entries)
            == Owed(t, before, a.entries) + Owed(t, today, Run(key, t, before, a).entries)
  {
    hide CreditsOwed;
    OwedAfterRun(key, t, before, today, a);
    CatchUp(PolicyOf(t, a.entries), before, today,
      CreditedStarts(a.entries, t.frequency, t.window), AccruedSum(a.entries, t.window));
  }

  /** Running on an earlier day first makes no difference to the run on a later day. */
  lemma EarlierRunIsInvisible(key: Key, t: Terms, before: int, today: int, a: Account)
    requires t.Valid() && before <= today && NetsNonNegative(a.entries, t.frequency, t.window)
    ensures Run(key, t, today, Run(key, t, before, a)) == Run(key, t, today, a)
    ensures NetsNonNegative(Run(key, t, before, a).entries, t.frequency, t.window)
  {
    OwedInTwoParts(key, t, before, today, a);
    OwedAfterRun(key, t, before, today, a);
    PostInTwoParts(key, a, Owed(t, before, a.entries), Owed(t, today, Run(key, t, before, a).entries), Accrual);
  }

  /** A run on a day that is already caught up credits nothing. */
  lemma LaterRunCoversEarlier(key: Key, t: Terms, before: int, today: int, a: Account)
    requires t.Valid() && before <= today && NetsNonNegative(a.entries, t.frequency, t.window)
    ensures Run(key, t, before, Run(key, t, today, a)) == Run(key, t, today, a)
  {
    var done := Run(key, t, today, a);
    EarlierRunIsInvisible(key, t, today, today, a);
    EarlierRunIsInvisible(key, t, before, today, done);
    RunOnlyAppends(key, t, before, done);
    RunOnlyAppends(key, t, today, Run(key, t, before, done));
  }

  lemma RunOnlyAppends(key: Key, t: Terms, today: int, a: Account)
    requires t.Valid()
    ensures |Run(key, t, today, a).entries| >= |a.entries|
    ensures |Run(key, t, today, a).entries| == |a.entries| ==> Run(key, t, today, a) == a
  {
    var credits := Owed(t, today, a.entries);
    if credits != [] {
      assert |CreditEntries(key, credits, Available(a.row), Accrual)| > 0;
    }
  }

  function RunAll(key: Key, t: Terms, days: seq<int>, a: Account): Account
    requires t.Valid()
  {
    if days == [] then a else Run(key, t, days[|days| - 1], RunAll(key, t, days[..|days| - 1], a))
  }

  function Latest(days: seq<int>): int
    requires days != []
  {
    if |days| == 1 then days[0] else Max(Latest(days[..|days| - 1]), days[|days| - 1])
  }

  /** Any sequence of runs within the year, with gaps, repeats and in any order, equals one run on its latest day. */
  lemma {:induction false} MissedAndRepeatedDaysDoNotMatter(key: Key, t: Terms, days: seq<int>, a: Account)
    requires t.Valid() && days != [] && NetsNonNegative(a.entries, t.frequency, t.window)
    ensures RunAll(key, t, days, a) == Run(key, t, Latest(days), a)
  {
    var last := days[|days| - 1];
    if |days| == 1 {
      assert RunAll(key, t, days[..0], a) == a;
    } else {
      var front := days[..|days| - 1];
      MissedAndRepeatedDaysDoNotMatter(key, t, front, a);
      if last >= Latest(front) {
        EarlierRunIsInvisible(key, t, Latest(front), last, a);
      } else {
        LaterRunCoversEarlier(key, t, last, Latest(front), a);
      }
    }
  }
}
