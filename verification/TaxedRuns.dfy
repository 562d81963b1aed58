/**
 * Over any course of payroll events that takes the history for tax from the runs stored at the time, and processes a
 * month before it drafts the next, the year's deductions come to the year's tax.
 */
module TaxedRuns {
  import opened Approvals
  import opened FinancialYear
  import IncomeTax
  import opened LineItems
  import opened PayrollRuns
  import opened TaxYear
  import opened Tds

  /** What the employee was paid and deducted before the period, by the stored line items. */
  function HistoryIn(office: Office, id: Id, period: Period): Totals {
    History(Rows(office.runs), id, period)
  }

  /** The facts take the employee's history from the tables. */
  predicate Filled(office: Office, facts: Facts, id: Id, profile: TaxProfile, period: Period) {
    facts.employeeId == id ==>
      var history := HistoryIn(office, id, period);
      && facts.profile == profile && facts.elapsedGross == history.gross && facts.alreadyDeducted == history.tds
      && facts.remainingMonths == MonthsRemaining(period)
  }

  /** A draft or recalculation fills in the history, and a month is processed before a later one is drafted. */
  ghost predicate Orderly(office: Office, event: Event, id: Id, profile: TaxProfile) {
    match event
    case CreateDraft(request, staff, _) =>
      forall i :: 0 <= i < |staff| ==> Filled(office, staff[i], id, profile, request.period)
    case Recalculate(run, facts, _) =>
      run < |office.runs| && id in facts ==> Filled(office, facts[id], id, profile, office.runs[run].period)
    case Process(run, _) =>
      run < |office.runs| && !office.runs[run].isReprocess ==>
        forall k :: 0 <= k < |office.runs| && !office.runs[k].isReprocess && id in EmployeesOf(office.runs[k].items) ==>
          office.runs[run].period !in Elapsed(office.runs[k].period)
    case _ => true
  }

  ghost predicate AllOrderly(office: Office, events: seq<Event>, id: Id, profile: TaxProfile)
    decreases |events|
  {
    events == [] ||
    (Orderly(office, events[0], id, profile) && AllOrderly(Step(office, events[0]), events[1..], id, profile))
  }

  /** The item's tax is the one that the history asks for. */
  predicate TaxedFrom(history: Totals, item: Item, profile: TaxProfile, period: Period) {
    item.tds == MonthlyTds(profile, item.gross, history.gross, history.tds, MonthsRemaining(period))
  }

  /** So is the tax of each of the employee's items in an ordinary run. */
  ghost predicate Taxed(office: Office, run: Run, id: Id, profile: TaxProfile) {
    forall i :: 0 <= i < |run.items| && !run.isReprocess && run.items[i].employeeId == id ==>
      TaxedFrom(HistoryIn(office, id, run.period), run.items[i], profile, run.period)
  }

  ghost predicate AllTaxed(office: Office, id: Id, profile: TaxProfile) {
    forall r :: 0 <= r < |office.runs| ==> Taxed(office, office.runs[r], id, profile)
  }

  // ---- Events that leave the history alone ----

  function TotalOfRuns(runs: seq<Run>, id: Id, period: Period): Totals {
    if runs == [] then Totals(0.0, 0.0)
    else
      var last := runs[|runs| - 1];
      Plus(TotalOfRuns(runs[..|runs| - 1], id, period), FromRun(last, last.items, id, period))
  }

  lemma {:induction false} HistoryIsOfRuns(runs: seq<Run>, id: Id, period: Period)
    requires forall r :: 0 <= r < |runs| ==> SoundRun(runs[r])
    ensures History(Rows(runs), id, period) == TotalOfRuns(runs, id, period)
  {
    hide FromRun;
    hide RowsOf;
    if runs != [] {
      var rest, last := runs[..|runs| - 1], runs[|runs| - 1];
      HistoryIsOfRuns(rest, id, period);
      HistoryOfBoth(Rows(rest), RowsOf(last, last.items), id, period);
      assert SoundRun(last);
      HistoryOfRun(last, last.items, id, period);
      hide History;
    }
  }

  lemma {:induction false} SameTotals(a: seq<Run>, b: seq<Run>, id: Id, period: Period)
    requires |a| == |b|
    requires forall r :: 0 <= r < |a| ==> FromRun(a[r], a[r].items, id, period) == FromRun(b[r], b[r].items, id, period)
    ensures TotalOfRuns(a, id, period) == TotalOfRuns(b, id, period)
  {
    hide FromRun;
    if a != [] {
      SameTotals(a[..|a| - 1], b[..|b| - 1], id, period);
    }
  }

  /** An event that processes no earlier month of the period's year leaves the period's history as it is. */
  lemma EarlierRunsStay(office: Office, event: Event, id: Id, period: Period)
    requires Sound(office) && WellFormed(event)
    requires event.Process? && event.run < |office.runs| && !office.runs[event.run].isReprocess ==>
      office.runs[event.run].period !in Elapsed(period)
    ensures HistoryIn(Step(office, event), id, period) == HistoryIn(office, id, period)
  {
    StepKeepsSound(office, event);
    var after := Step(office, event);
    HistoryIsOfRuns(office.runs, id, period);
    HistoryIsOfRuns(after.runs, id, period);
    forall r | 0 <= r < |office.runs|
      ensures r < |after.runs|
      ensures FromRun(office.runs[r], office.runs[r].items, id, period)
        == FromRun(after.runs[r], after.runs[r].items, id, period)
    {
      SameFromRun(office, event, r, id, period);
    }
    NewRunIsNotCounted(office, event, id, period);
    SameTotals(office.runs, after.runs[..|office.runs|], id, period);
  }

  lemma SameFromRun(office: Office, event: Event, r: nat, id: Id, period: Period)
    requires r < |office.runs|
    requires event.Process? && event.run < |office.runs| && !office.runs[event.run].isReprocess ==>
      office.runs[event.run].period !in Elapsed(period)
    ensures r < |Step(office, event).runs|
    ensures var before, after := office.runs[r], Step(office, event).runs[r];
      FromRun(before, before.items, id, period) == FromRun(after, after.items, id, period)
  {
    hide Elapsed;
    hide Recalculated;
    hide DraftItems;
    hide ArrearsOf;
    hide ItemIndex;
  }

  lemma NewRunIsDraft(office: Office, event: Event)
    ensures var after := Step(office, event);
      |after.runs| == |office.runs| ||
      (|after.runs| == |office.runs| + 1 && after.runs[|office.runs|].status.Draft?)
  {
    hide Recalculated;
    hide DraftItems;
    hide ArrearsOf;
    hide ItemIndex;
  }

  lemma DraftIsNotCounted(runs: seq<Run>, draft: Run, id: Id, period: Period)
    requires draft.status.Draft?
    ensures TotalOfRuns(runs + [draft], id, period) == TotalOfRuns(runs, id, period)
  {
    hide Elapsed;
    hide ItemIndex;
    assert (runs + [draft])[..|runs|] == runs;
    assert FromRun(draft, draft.items, id, period) == Totals(0.0, 0.0);
    hide FromRun;
  }

  lemma NewRunIsNotCounted(office: Office, event: Event, id: Id, period: Period)
    ensures var after := Step(office, event);
      && |office.runs| <= |after.runs|
      && TotalOfRuns(after.runs, id, period) == TotalOfRuns(after.runs[..|office.runs|], id, period)
  {
    NewRunIsDraft(office, event);
    var runs, n := Step(office, event).runs, |office.runs|;
    hide *;
    if |runs| == n {
      assert runs[..n] == runs;
    } else {
      assert runs == runs[..n] + [runs[n]];
      DraftIsNotCounted(runs[..n], runs[n], id, period);
    }
  }

  // ---- What such events keep ----

  lemma {:induction false} DraftIsTaxed(office: Office, staff: seq<Facts>, settings: Settings, id: Id,
      profile: TaxProfile, period: Period, i: nat)
    requires forall k :: 0 <= k < |staff| ==> Filled(office, staff[k], id, profile, period)
    requires i < |DraftItems(office.structures, office.arrears, staff, settings, period.month)|
    requires DraftItems(office.structures, office.arrears, staff, settings, period.month)[i].employeeId == id
    ensures TaxedFrom(HistoryIn(office, id, period),
      DraftItems(office.structures, office.arrears, staff, settings, period.month)[i], profile, period)
  {
    var rest, last := staff[..|staff| - 1], staff[|staff| - 1];
    var before := DraftItems(office.structures, office.arrears, rest, settings, period.month);
    if i < |before| {
      DraftIsTaxed(office, rest, settings, id, profile, period, i);
    } else {
      LineItemIsConsistent(StructureOf(office.structures, last.employeeId), last, settings, period.month);
      assert Filled(office, last, id, profile, period);
      hide ComputeLineItem;
      hide MonthlyTds;
      hide HistoryIn;
    }
  }

  lemma RecalculationIsTaxed(office: Office, run: nat, facts: map<Id, Facts>, settings: Settings, id: Id,
      profile: TaxProfile)
    requires run < |office.runs| && Taxed(office, office.runs[run], id, profile)
    requires WellFormed(Recalculate(run, facts, settings))
    requires Orderly(office, Recalculate(run, facts, settings), id, profile)
    ensures Taxed(office, AfterRecalculation(office, run, facts, settings).runs[run], id, profile)
  {
    var r := office.runs[run];
    if IsOpen(r) {
      RecalculatedItems(office.structures, r.items, facts, settings, r.period.month);
      var after := Recalculated(office.structures, r.items, facts, settings, r.period.month);
      hide Recalculated;
      if after.Ok? {
        forall i | 0 <= i < |r.items| && r.items[i].employeeId == id
          ensures TaxedFrom(HistoryIn(office, id, r.period), after.value[i], profile, r.period)
        {
          assert !CannotCompute(office.structures, r.items[i], facts, settings, r.period.month);
          LineItemIsConsistent(StructureOf(office.structures, id), facts[id], settings, r.period.month);
          hide ComputeLineItem;
          hide MonthlyTds;
          hide HistoryIn;
        }
      }
    }
  }

  /** The runs there are stay taxed by the history before the event. */
  lemma OldRunsStayTaxed(office: Office, event: Event, r: nat, id: Id, profile: TaxProfile)
    requires r < |office.runs| && Taxed(office, office.runs[r], id, profile)
    requires WellFormed(event) && Orderly(office, event, id, profile)
    ensures r < |Step(office, event).runs| && Taxed(office, Step(office, event).runs[r], id, profile)
  {
    if event.Recalculate? && event.run < |office.runs| && r == event.run {
      RecalculationIsTaxed(office, event.run, event.facts, event.settings, id, profile);
    }
    hide HistoryIn;
    hide MonthlyTds;
    hide MonthsRemaining;
    hide Recalculated;
    hide DraftItems;
    hide ArrearsOf;
    hide ItemIndex;
    hide Orderly;
  }

  lemma NewRunIsTaxed(office: Office, event: Event, id: Id, profile: TaxProfile)
    requires Orderly(office, event, id, profile) && |Step(office, event).runs| > |office.runs|
    ensures Taxed(office, Step(office, event).runs[|office.runs|], id, profile)
  {
    hide HistoryIn;
    hide MonthlyTds;
    hide MonthsRemaining;
    hide DraftItems;
    hide Recalculated;
    hide ArrearsOf;
    hide ItemIndex;
    hide Filled;
    hide Fold;
    hide TaxedFrom;
    var run := Step(office, event).runs[|office.runs|];
    forall i | 0 <= i < |run.items| && run.items[i].employeeId == id
      ensures TaxedFrom(HistoryIn(office, id, run.period), run.items[i], profile, run.period)
    {
      DraftIsTaxed(office, event.staff, event.settings, id, profile, event.request.period, i);
    }
  }

  lemma NewHistoryIsOld(office: Office, event: Event, r: nat, id: Id, profile: TaxProfile)
    requires Sound(office) && WellFormed(event) && Orderly(office, event, id, profile)
    requires r < |Step(office, event).runs| && Taxed(office, Step(office, event).runs[r], id, profile)
    ensures Taxed(Step(office, event), Step(office, event).runs[r], id, profile)
  {
    var run := Step(office, event).runs[r];
    if !run.isReprocess && id in EmployeesOf(run.items) {
      assert event.Process? && event.run < |office.runs| && !office.runs[event.run].isReprocess ==>
        office.runs[event.run].period !in Elapsed(run.period);
      EarlierRunsStay(office, event, id, run.period);
    }
  }

  lemma StepKeepsTaxed(office: Office, event: Event, id: Id, profile: TaxProfile)
    requires Sound(office) && WellFormed(event) && Orderly(office, event, id, profile) && AllTaxed(office, id, profile)
    ensures AllTaxed(Step(office, event), id, profile)
  {
    NewRunIsDraft(office, event);
    hide Step;
    hide Orderly;
    hide Sound;
    hide Taxed;
    var after := Step(office, event);
    forall r | 0 <= r < |after.runs|
      ensures Taxed(after, after.runs[r], id, profile)
    {
      if r < |office.runs| {
        OldRunsStayTaxed(office, event, r, id, profile);
      } else {
        NewRunIsTaxed(office, event, id, profile);
      }
      NewHistoryIsOld(office, event, r, id, profile);
    }
  }

  /** In every state that orderly events reach, the tax of the employee's items is what the stored history asks for. */
  lemma {:induction false} EventsKeepTaxed(office: Office, events: seq<Event>, id: Id, profile: TaxProfile)
    requires Sound(office) && AllWellFormed(events) && AllTaxed(office, id, profile)
    requires AllOrderly(office, events, id, profile)
    ensures Sound(Steps(office, events)) && AllTaxed(Steps(office, events), id, profile)
    decreases |events|
  {
    hide Step;
    hide Sound;
    hide AllTaxed;
    hide Orderly;
    if events != [] {
      StepKeepsSound(office, events[0]);
      StepKeepsTaxed(office, events[0], id, profile);
      EventsKeepTaxed(Step(office, events[0]), events[1..], id, profile);
    }
  }

  /**
   * Whatever orderly events lead to twelve paid months, these have deducted the tax on what they paid, to half a rupee,
   * unless more was deducted by February already.
   */
  lemma YearOfEventsIsTaxed(office: Office, events: seq<Event>, y: Year, at: seq<nat>)
    requires Sound(office) && AllWellFormed(events) && AllTaxed(office, y.employeeId, y.profile)
    requires AllOrderly(office, events, y.employeeId, y.profile) && YearPaid(Steps(office, events).runs, y, at)
    ensures var after := Steps(office, events);
      var deducted := MonthsAmong(after.runs, y, at, 12, |after.runs|).tds;
      var target := IncomeTax.Max(ActualTax(y), MonthsAmong(after.runs, y, at, 11, |after.runs|).tds);
      target - 0.5 <= deducted <= target + 0.5
  {
    EventsKeepTaxed(office, events, y.employeeId, y.profile);
    var after := Steps(office, events);
    hide Steps;
    hide MonthlyTds;
    forall k | 0 <= k < 12
      ensures PaidInMonth(after.runs, y, k, at[k]) && TaxedInMonth(after.runs, y, k, at[k])
    {
      assert PaidInMonth(after.runs, y, k, at[k]);
      assert Taxed(after, after.runs[at[k]], y.employeeId, y.profile);
    }
    hide AllTaxed;
    hide Sound;
    hide YearPaid;
    hide MonthsAmong;
    YearOfRunsIsTaxed(after, y, at);
  }
}
