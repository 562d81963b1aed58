/** Whether arrears folded into a run are still in the pay of that run. */
module FoldedArrears {
  import opened LineItems
  import opened PayrollRuns

  /** The employee's arrears that are folded into the run, as a draft puts them on a line item. */
  function FoldedFor(arrears: seq<Arrears>, id: Id, run: nat): seq<Adjustment> {
    if arrears == [] then []
    else
      var before, last := FoldedFor(arrears[..|arrears| - 1], id, run), arrears[|arrears| - 1];
      if last.employeeId == id && last.status == Folded(run)
      then before + [Adjustment("ARREARS", last.amount, ArrearsFor(last.period))] else before
  }

  /**
   * Every row folded into the run for the employee stands as an adjustment of their line item, as often as there are
   * rows.
   */
  ghost predicate Stand(office: Office, run: nat, id: Id)
    requires run < |office.runs| && id in EmployeesOf(office.runs[run].items)
  {
    var items := office.runs[run].items;
    multiset(FoldedFor(office.arrears, id, run)) <= multiset(items[ItemIndex(items, id)].adjustments)
  }

  // ---- Folded rows stay as they are ----

  lemma {:induction false} FoldedForGrows(before: seq<Arrears>, after: seq<Arrears>, id: Id, run: nat)
    requires |before| <= |after|
    requires forall i ::
      0 <= i < |before| ==>
        RowAdvances(before[i], after[i]) && (after[i] == before[i] || after[i].status != Folded(run))
    requires forall i :: |before| <= i < |after| ==> after[i].status != Folded(run)
    ensures FoldedFor(after, id, run) == FoldedFor(before, id, run)
    decreases |after|
  {
    if |after| > |before| {
      FoldedForGrows(before, after[..|after| - 1], id, run);
    } else if before != [] {
      FoldedForGrows(before[..|before| - 1], after[..|after| - 1], id, run);
    }
  }

  lemma FoldedStaysInStep(office: Office, event: Event, id: Id, run: nat)
    requires run < |office.runs|
    ensures FoldedFor(Step(office, event).arrears, id, run) == FoldedFor(office.arrears, id, run)
  {
    var after := Step(office, event);
    StepAdvances(office, event);
    if event.Revise? && event.id in office.structures {
      NewRowsAreUnpaid(office.runs, |office.runs|, event.id, office.structures[event.id], event.components,
        event.effective, event.terms);
    }
    hide DraftItems;
    hide Recalculated;
    hide ArrearsOf;
    hide ItemIndex;
    hide RunAdvances;
    assert forall i :: 0 <= i < |office.arrears| ==>
      RowAdvances(office.arrears[i], after.arrears[i]) &&
        (after.arrears[i] == office.arrears[i] || after.arrears[i].status != Folded(run));
    FoldedForGrows(office.arrears, after.arrears, id, run);
  }

  lemma {:induction false} FoldedIsUnpaid(arrears: seq<Arrears>, employees: set<Id>, run: nat, id: Id)
    requires id in employees && forall i :: 0 <= i < |arrears| ==> arrears[i].status != Folded(run)
    ensures FoldedFor(Fold(arrears, employees, run), id, run) == UnpaidOf(arrears, id)
  {
    if arrears != [] {
      var rest := arrears[..|arrears| - 1];
      FoldedIsUnpaid(rest, employees, run, id);
      assert Fold(arrears, employees, run)[..|arrears| - 1] == Fold(rest, employees, run);
    }
  }

  // ---- Line items keep their place and, unless set, their adjustments ----

  /** The event sets this employee's adjustments in this run. */
  predicate Sets(office: Office, event: Event, run: nat, id: Id)
    requires run < |office.runs|
  {
    event.Adjust? && event.run == run && event.id == id && IsOpen(office.runs[run]) &&
      id in EmployeesOf(office.runs[run].items)
  }

  ghost predicate SamePlaces(before: seq<Item>, after: seq<Item>) {
    |after| == |before| && forall i :: 0 <= i < |before| ==> after[i].employeeId == before[i].employeeId
  }

  lemma {:induction false} SameIndex(before: seq<Item>, after: seq<Item>, id: Id)
    requires SamePlaces(before, after)
    ensures ItemIndex(after, id) == ItemIndex(before, id)
  {
    if before != [] && before[|before| - 1].employeeId != id {
      SameIndex(before[..|before| - 1], after[..|after| - 1], id);
    }
  }

  lemma {:induction false} RecalculatedKeepsExtras(office: Office, items: seq<Item>, event: Event, month: int)
    requires event.Recalculate? && Recalculated(office.structures, items, event.facts, event.settings, month).Ok?
    ensures var after := Recalculated(office.structures, items, event.facts, event.settings, month).value;
      |after| == |items| && forall i :: 0 <= i < |items| ==> SameExtras(items[i], after[i])
  {
    hide ComputeLineItem;
    if items != [] {
      RecalculatedKeepsExtras(office, items[..|items| - 1], event, month);
    }
  }

  lemma StepOnItems(office: Office, event: Event, run: nat)
    requires run < |office.runs|
    ensures run < |Step(office, event).runs|
    ensures var before, after := office.runs[run].items, Step(office, event).runs[run].items;
      && SamePlaces(before, after)
      && forall i :: 0 <= i < |before| && !(event.Adjust? && event.run == run && i == ItemIndex(before, event.id)) ==>
        after[i].adjustments == before[i].adjustments
    ensures event.Adjust? && Sets(office, event, run, event.id) ==>
      Step(office, event).runs[run].items[ItemIndex(office.runs[run].items, event.id)].adjustments == event.adjustments
    ensures event.Adjust? && event.run == run && !Sets(office, event, run, event.id) ==> Step(office, event) == office
  {
    hide DraftItems;
    hide ArrearsOf;
    if event.Recalculate? && event.run == run {
      var items := Recalculated(office.structures, office.runs[run].items, event.facts, event.settings,
        office.runs[run].period.month);
      if items.Ok? {
        RecalculatedKeepsExtras(office, office.runs[run].items, event, office.runs[run].period.month);
      }
    }
    hide Recalculated;
  }

  lemma StepOnAdjustments(office: Office, event: Event, run: nat, id: Id)
    requires run < |office.runs| && id in EmployeesOf(office.runs[run].items)
    ensures var next, i := Step(office, event), ItemIndex(office.runs[run].items, id);
      && run < |next.runs| && id in EmployeesOf(next.runs[run].items) && ItemIndex(next.runs[run].items, id) == i
      && next.runs[run].items[i].adjustments ==
         if Sets(office, event, run, id) then event.adjustments else office.runs[run].items[i].adjustments
  {
    StepOnItems(office, event, run);
    var before, after := office.runs[run].items, Step(office, event).runs[run].items;
    SameIndex(before, after, id);
    hide Step;
    if event.Adjust? && event.run == run && event.id != id && event.id in EmployeesOf(before) {
      assert before[ItemIndex(before, id)].employeeId != before[ItemIndex(before, event.id)].employeeId;
    }
  }

  // ---- The last list set decides ----

  datatype Setting = Never | Last(adjustments: seq<Adjustment>)

  /** The list the last of the events to set this employee's adjustments in this run gives them. */
  function LastSet(office: Office, events: seq<Event>, run: nat, id: Id): Setting
    requires run < |office.runs|
    decreases |events|
  {
    if events == [] then Never
    else
      StepAdvances(office, events[0]);
      var later := LastSet(Step(office, events[0]), events[1..], run, id);
      if later.Last? then later
      else if Sets(office, events[0], run, id) then Last(events[0].adjustments)
      else Never
  }

  lemma {:induction false} AdjustmentsAfter(office: Office, events: seq<Event>, run: nat, id: Id)
    requires run < |office.runs| && id in EmployeesOf(office.runs[run].items)
    ensures var after, i := Steps(office, events), ItemIndex(office.runs[run].items, id);
      && run < |after.runs| && id in EmployeesOf(after.runs[run].items) && ItemIndex(after.runs[run].items, id) == i
      && FoldedFor(after.arrears, id, run) == FoldedFor(office.arrears, id, run)
      && after.runs[run].items[i].adjustments ==
         match LastSet(office, events, run, id) {
           case Never => office.runs[run].items[i].adjustments
           case Last(adjustments) => adjustments
         }
    decreases |events|
  {
    if events != [] {
      StepOnAdjustments(office, events[0], run, id);
      FoldedStaysInStep(office, events[0], id, run);
      StepAdvances(office, events[0]);
      hide Step;
      hide ItemIndex;
      hide EmployeesOf;
      hide Sets;
      AdjustmentsAfter(Step(office, events[0]), events[1..], run, id);
    }
  }

  /**
   * The arrears that a draft folds for an employee stand in their pay, through any later events, exactly when nobody
   * has set that employee's adjustments in that run since, or the last one to do so listed them again.
   */
  lemma FoldedArrearsStandExactly(office: Office, request: DraftRequest, staff: seq<Facts>, settings: Settings,
      events: seq<Event>, id: Id)
    requires Sound(office) && WellFormed(CreateDraft(request, staff, settings)) && DraftError(office, request).None?
    requires id in EmployeesOf(AfterDraft(office, request, staff, settings).runs[|office.runs|].items)
    ensures var run, drafted := |office.runs|, AfterDraft(office, request, staff, settings);
      var after, unpaid := Steps(drafted, events), UnpaidOf(office.arrears, id);
      && run < |after.runs| && id in EmployeesOf(after.runs[run].items)
      && FoldedFor(after.arrears, id, run) == unpaid
      && (Stand(after, run, id) <==>
          match LastSet(drafted, events, run, id) {
            case Never => true
            case Last(adjustments) => multiset(unpaid) <= multiset(adjustments)
          })
  {
    var run, drafted := |office.runs|, AfterDraft(office, request, staff, settings);
    var items := drafted.runs[run].items;
    DraftIsSound(office.structures, office.arrears, staff, settings, request.period.month);
    assert items[ItemIndex(items, id)].adjustments == UnpaidOf(office.arrears, id);
    FoldedIsUnpaid(office.arrears, EmployeesOf(items), run, id);
    AdjustmentsAfter(drafted, events, run, id);
    hide Steps;
    hide LastSet;
    hide ItemIndex;
    hide EmployeesOf;
  }
}
