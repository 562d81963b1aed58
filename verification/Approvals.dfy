/** Whether the figures of an approved run are those that its first approver saw. */
module Approvals {
  import opened LineItems
  import opened PayrollRuns

  /** Without facts, a work state or a structure, or with a negative net pay, nobody's item can be computed. */
  predicate CannotCompute(structures: map<Id, Structure>, item: Item, facts: map<Id, Facts>, settings: Settings,
      month: int)
  {
    item.employeeId !in facts ||
    ComputeLineItem(StructureOf(structures, item.employeeId), facts[item.employeeId], settings, month).Err?
  }

  /** From these facts and the structure in force the item has the days, gross, contributions and tax that it has. */
  predicate ComputesTo(structures: map<Id, Structure>, item: Item, facts: map<Id, Facts>, settings: Settings,
      month: int)
  {
    item.employeeId in facts &&
    var computed := ComputeLineItem(StructureOf(structures, item.employeeId), facts[item.employeeId], settings, month);
    computed.Ok? &&
    item == computed.value.(employeeId := item.employeeId, netPay := item.netPay, adjustments := item.adjustments,
      payslip := item.payslip)
  }

  /** The event changes no figure of the run: it is not about them, is refused, or comes to the same. */
  ghost predicate HarmlessTo(office: Office, event: Event, run: nat)
    requires run < |office.runs|
  {
    var r := office.runs[run];
    !IsOpen(r) ||
    match event
    case Recalculate(which, facts, settings) =>
      which == run ==>
        || (exists i ::
          0 <= i < |r.items| && CannotCompute(office.structures, r.items[i], facts, settings, r.period.month))
        || (forall i ::
          0 <= i < |r.items| ==> ComputesTo(office.structures, r.items[i], facts, settings, r.period.month))
    case Adjust(which, id, adjustments) =>
      which == run ==>
        var i := ItemIndex(r.items, id);
        i < 0 || r.items[i].adjustments == adjustments
    case _ => true
  }

  lemma SameFiguresOn(a: seq<Item>, b: seq<Item>, c: seq<Item>)
    requires SameFigures(a, b)
    ensures SameFigures(b, a)
    ensures SameFigures(b, c) <==> SameFigures(a, c)
  {
    forall i | 0 <= i < |a|
      ensures b[i].(payslip := a[i].payslip) == a[i] && a[i].(payslip := b[i].payslip) == b[i]
    {
    }
    if SameFigures(b, c) {
      assert forall i :: 0 <= i < |a| ==> c[i].(payslip := b[i].payslip) == b[i];
    }
    if SameFigures(a, c) {
      assert forall i :: 0 <= i < |a| ==> c[i].(payslip := a[i].payslip) == a[i];
    }
  }

  lemma AdjustmentIsHarmless(office: Office, run: nat, id: Id, adjustments: seq<Adjustment>)
    requires Sound(office) && run < |office.runs|
    ensures var after := AfterAdjustment(office, run, id, adjustments);
      SameFigures(office.runs[run].items, after.runs[run].items) <==>
        HarmlessTo(office, Adjust(run, id, adjustments), run)
  {
    var r := office.runs[run];
    var i := ItemIndex(r.items, id);
    if IsOpen(r) && i >= 0 {
      assert SoundRun(r) && SoundItem(r.items[i]);
      var after := r.items[i := Adjusted(r.items[i], adjustments)];
      if SameFigures(r.items, after) {
        assert after[i].(payslip := r.items[i].payslip) == r.items[i];
      }
    }
  }

  /** A recalculation computes each item anew, or nothing at all if there is one that it cannot compute. */
  lemma {:induction false} RecalculatedItems(structures: map<Id, Structure>, items: seq<Item>, facts: map<Id, Facts>,
      settings: Settings, month: int)
    ensures var after := Recalculated(structures, items, facts, settings, month);
      && (after.Err? <==>
          exists i :: 0 <= i < |items| && CannotCompute(structures, items[i], facts, settings, month))
      && (after.Ok? ==> |after.value| == |items| && forall i :: 0 <= i < |items| ==>
            after.value[i] == Recomputed(items[i],
              ComputeLineItem(StructureOf(structures, items[i].employeeId), facts[items[i].employeeId], settings,
                month).value))
  {
    hide ComputeLineItem;
    if items != [] {
      var rest, last := items[..|items| - 1], items[|items| - 1];
      RecalculatedItems(structures, rest, facts, settings, month);
      if i :| 0 <= i < |rest| && CannotCompute(structures, rest[i], facts, settings, month) {
        assert items[i] == rest[i];
      }
      if i :| 0 <= i < |items| && CannotCompute(structures, items[i], facts, settings, month) {
        assert i < |rest| ==> rest[i] == items[i];
      }
    }
  }

  lemma ComputedAgain(structures: map<Id, Structure>, item: Item, facts: map<Id, Facts>, settings: Settings,
      month: int)
    requires SoundItem(item) && !CannotCompute(structures, item, facts, settings, month)
    ensures var computed :=
        ComputeLineItem(StructureOf(structures, item.employeeId), facts[item.employeeId], settings, month).value;
      Recomputed(item, computed) == item <==> ComputesTo(structures, item, facts, settings, month)
  {
    ComputedIsSound(StructureOf(structures, item.employeeId), facts[item.employeeId], settings, month);
    hide ComputeLineItem;
    hide Total;
  }

  lemma RecalculationIsHarmless(office: Office, run: nat, facts: map<Id, Facts>, settings: Settings)
    requires Sound(office) && run < |office.runs|
    ensures var after := AfterRecalculation(office, run, facts, settings);
      SameFigures(office.runs[run].items, after.runs[run].items) <==>
        HarmlessTo(office, Recalculate(run, facts, settings), run)
  {
    var r, after := office.runs[run], AfterRecalculation(office, run, facts, settings);
    if IsOpen(r) {
      var month := r.period.month;
      RecalculatedItems(office.structures, r.items, facts, settings, month);
      assert SoundRun(r);
      hide Recalculated;
      hide ComputeLineItem;
      if forall i :: 0 <= i < |r.items| ==> !CannotCompute(office.structures, r.items[i], facts, settings, month) {
        forall i | 0 <= i < |r.items|
          ensures after.runs[run].items[i] == r.items[i] <==>
            ComputesTo(office.structures, r.items[i], facts, settings, month)
        {
          ComputedAgain(office.structures, r.items[i], facts, settings, month);
        }
        forall i | 0 <= i < |r.items|
          ensures after.runs[run].items[i].payslip == r.items[i].payslip
        {
        }
      }
    }
  }

  /** Exactly the harmless events leave the figures as they are. */
  lemma HarmlessIsExact(office: Office, event: Event, run: nat)
    requires Sound(office) && run < |office.runs|
    ensures run < |Step(office, event).runs|
    ensures SameFigures(office.runs[run].items, Step(office, event).runs[run].items) <==> HarmlessTo(office, event, run)
  {
    hide Recalculated;
    hide DraftItems;
    hide ArrearsOf;
    hide Sound;
    match event
    case Adjust(which, id, adjustments) =>
      if which == run {
        AdjustmentIsHarmless(office, run, id, adjustments);
      }
    case Recalculate(which, facts, settings) =>
      if which == run {
        RecalculationIsHarmless(office, run, facts, settings);
      }
    case _ =>
  }

  /** At each of the events the figures are the given ones. */
  ghost predicate FiguresStand(office: Office, events: seq<Event>, run: nat, figures: seq<Item>)
    requires run < |office.runs|
    decreases |events|
  {
    if events == [] then SameFigures(figures, office.runs[run].items)
    else
      StepAdvances(office, events[0]);
      SameFigures(figures, office.runs[run].items) && FiguresStand(Step(office, events[0]), events[1..], run, figures)
  }

  ghost predicate AllHarmless(office: Office, events: seq<Event>, run: nat)
    requires run < |office.runs|
    decreases |events|
  {
    if events == [] then true
    else
      StepAdvances(office, events[0]);
      HarmlessTo(office, events[0], run) && AllHarmless(Step(office, events[0]), events[1..], run)
  }

  /**
   * From any moment on, the first approval say, the figures of a run stand through any events exactly when every
   * recalculation and adjustment of it among them is refused or comes to the same.
   */
  lemma {:induction false} FiguresStandExactly(office: Office, events: seq<Event>, run: nat, figures: seq<Item>)
    requires Sound(office) && AllWellFormed(events) && run < |office.runs|
    requires SameFigures(figures, office.runs[run].items)
    ensures FiguresStand(office, events, run, figures) <==> AllHarmless(office, events, run)
    decreases |events|
  {
    hide Step;
    hide Sound;
    hide SameFigures;
    hide HarmlessTo;
    if events != [] {
      var next := Step(office, events[0]);
      StepAdvances(office, events[0]);
      HarmlessIsExact(office, events[0], run);
      SameFiguresOn(figures, office.runs[run].items, next.runs[run].items);
      StepKeepsSound(office, events[0]);
      if SameFigures(figures, next.runs[run].items) {
        FiguresStandExactly(next, events[1..], run, figures);
      }
    }
  }

  /** No event recalculates or adjusts the run. */
  ghost predicate LeavesAlone(events: seq<Event>, run: nat) {
    forall i :: 0 <= i < |events| ==>
      !(events[i].Recalculate? && events[i].run == run) && !(events[i].Adjust? && events[i].run == run)
  }

  lemma {:induction false} LeftAloneIsHarmless(office: Office, events: seq<Event>, run: nat)
    requires run < |office.runs| && LeavesAlone(events, run)
    ensures AllHarmless(office, events, run)
    decreases |events|
  {
    if events != [] {
      StepAdvances(office, events[0]);
      hide Step;
      LeftAloneIsHarmless(Step(office, events[0]), events[1..], run);
    }
  }

  lemma {:induction false} StandingAtTheEnd(office: Office, events: seq<Event>, run: nat, figures: seq<Item>)
    requires run < |office.runs| && FiguresStand(office, events, run, figures)
    ensures run < |Steps(office, events).runs| && SameFigures(figures, Steps(office, events).runs[run].items)
    decreases |events|
  {
    if events != [] {
      StepAdvances(office, events[0]);
      hide Step;
      StandingAtTheEnd(Step(office, events[0]), events[1..], run, figures);
    }
  }

  /** A run that is neither recalculated nor adjusted after its first approval ends with the figures then approved. */
  lemma ApprovedAsFirstSeen(office: Office, events: seq<Event>, run: nat)
    requires Sound(office) && AllWellFormed(events) && run < |office.runs| && office.runs[run].approvals != {}
    requires LeavesAlone(events, run)
    ensures var after := Steps(office, events);
      && run < |after.runs| && office.runs[run].approvals <= after.runs[run].approvals
      && SameFigures(office.runs[run].items, after.runs[run].items)
  {
    LeftAloneIsHarmless(office, events, run);
    FiguresStandExactly(office, events, run, office.runs[run].items);
    StandingAtTheEnd(office, events, run, office.runs[run].items);
    EventsAdvance(office, events);
    assert RunAdvances(office.runs[run], Steps(office, events).runs[run]);
  }

  /**
   * One recalculation or adjustment between two approvals: the run is approved all the same, and on other figures than
   * the first approver saw exactly when that event was not harmless.
   */
  lemma ChangeBetweenApprovals(office: Office, run: nat, first: Id, event: Event, second: Id)
    requires Sound(office) && WellFormed(event) && run < |office.runs| && (event.Recalculate? || event.Adjust?)
    requires office.runs[run].status.Review? && office.runs[run].approvals == {first} && second != first
    ensures var after := Steps(office, [event, Approve(run, second, 2)]);
      && run < |after.runs| && after.runs[run].status.Approved? && after.runs[run].approvals == {first, second}
      && (SameFigures(office.runs[run].items, after.runs[run].items) <==> HarmlessTo(office, event, run))
  {
    var next := Step(office, event);
    HarmlessIsExact(office, event, run);
    assert next.runs[run].approvals == {first} && next.runs[run].status.Review? by {
      hide Recalculated;
    }
    assert {first} + {second} == {first, second} && |{first, second}| == 2;
    var approval := Approve(run, second, 2);
    assert Step(next, approval).runs[run].items == next.runs[run].items;
    hide Step;
    hide HarmlessTo;
    hide SameFigures;
    assert [event, approval][1..] == [approval] && [approval][1..] == [];
    assert Steps(next, [approval]) == Steps(Step(next, approval), []);
  }

  // ---- Recalculating from what the figures were computed from ----

  /** The run's figures are what these structures and facts come to. */
  ghost predicate ComputedFrom(structures: map<Id, Structure>, run: Run, facts: map<Id, Facts>, settings: Settings) {
    forall i :: 0 <= i < |run.items| ==> ComputesTo(structures, run.items[i], facts, settings, run.period.month)
  }

  lemma {:induction false} DraftedFrom(structures: map<Id, Structure>, arrears: seq<Arrears>, staff: seq<Facts>,
      facts: map<Id, Facts>, settings: Settings, month: int)
    requires forall i :: 0 <= i < |staff| ==> staff[i].employeeId in facts && facts[staff[i].employeeId] == staff[i]
    ensures forall i :: 0 <= i < |DraftItems(structures, arrears, staff, settings, month)| ==>
      ComputesTo(structures, DraftItems(structures, arrears, staff, settings, month)[i], facts, settings, month)
  {
    hide ComputesTo;
    hide WithArrears;
    hide ComputeLineItem;
    if staff != [] {
      DraftedFrom(structures, arrears, staff[..|staff| - 1], facts, settings, month);
      DraftedOne(structures, arrears, staff[|staff| - 1], facts, settings, month);
    }
  }

  lemma DraftedOne(structures: map<Id, Structure>, arrears: seq<Arrears>, one: Facts, facts: map<Id, Facts>,
      settings: Settings, month: int)
    requires one.employeeId in facts && facts[one.employeeId] == one
    ensures var outcome := ComputeLineItem(StructureOf(structures, one.employeeId), one, settings, month);
      outcome.Ok? ==> ComputesTo(structures, WithArrears(outcome.value, arrears), facts, settings, month)
  {
    var outcome := ComputeLineItem(StructureOf(structures, one.employeeId), one, settings, month);
    if outcome.Ok? {
      ComputedIsSound(StructureOf(structures, one.employeeId), one, settings, month);
    }
    hide ComputeLineItem;
  }

  /** An accepted draft is computed from the facts of its staff. */
  lemma DraftIsComputed(office: Office, request: DraftRequest, staff: seq<Facts>, facts: map<Id, Facts>,
      settings: Settings)
    requires DraftError(office, request).None?
    requires forall i :: 0 <= i < |staff| ==> staff[i].employeeId in facts && facts[staff[i].employeeId] == staff[i]
    ensures var after := Step(office, CreateDraft(request, staff, settings));
      |after.runs| == |office.runs| + 1 && ComputedFrom(office.structures, after.runs[|office.runs|], facts, settings)
  {
    DraftedFrom(office.structures, office.arrears, staff, facts, settings, request.period.month);
    hide DraftItems;
    hide ComputesTo;
  }

  /** An accepted recalculation is computed from its facts. */
  lemma RecalculationIsComputed(office: Office, run: nat, facts: map<Id, Facts>, settings: Settings)
    requires run < |office.runs| && IsOpen(office.runs[run])
    requires forall i :: 0 <= i < |office.runs[run].items| ==>
      !CannotCompute(office.structures, office.runs[run].items[i], facts, settings, office.runs[run].period.month)
    ensures ComputedFrom(office.structures, Step(office, Recalculate(run, facts, settings)).runs[run], facts, settings)
  {
    RecalculatedItems(office.structures, office.runs[run].items, facts, settings, office.runs[run].period.month);
    hide ComputeLineItem;
    hide Recalculated;
  }

  /** The same run with the same employees. */
  predicate SameStaff(before: Run, after: Run) {
    && after.period == before.period && |after.items| == |before.items|
    && forall i :: 0 <= i < |before.items| ==> after.items[i].employeeId == before.items[i].employeeId
  }

  lemma StepKeepsComputed(structures: map<Id, Structure>, office: Office, event: Event, run: nat,
      facts: map<Id, Facts>, settings: Settings)
    requires run < |office.runs| && ComputedFrom(structures, office.runs[run], facts, settings)
    requires !(event.Recalculate? && event.run == run)
    ensures run < |Step(office, event).runs|
    ensures ComputedFrom(structures, Step(office, event).runs[run], facts, settings)
    ensures SameStaff(office.runs[run], Step(office, event).runs[run])
  {
    StepAdvances(office, event);
    hide ComputeLineItem;
    hide Recalculated;
    hide DraftItems;
    hide ArrearsOf;
    hide ItemIndex;
  }

  lemma {:induction false} StaysComputed(structures: map<Id, Structure>, office: Office, events: seq<Event>, run: nat,
      facts: map<Id, Facts>, settings: Settings)
    requires run < |office.runs| && ComputedFrom(structures, office.runs[run], facts, settings)
    requires forall i :: 0 <= i < |events| ==> !(events[i].Recalculate? && events[i].run == run)
    ensures run < |Steps(office, events).runs|
    ensures ComputedFrom(structures, Steps(office, events).runs[run], facts, settings)
    ensures SameStaff(office.runs[run], Steps(office, events).runs[run])
    decreases |events|
  {
    hide Step;
    hide ComputedFrom;
    if events != [] {
      StepKeepsComputed(structures, office, events[0], run, facts, settings);
      StaysComputed(structures, Step(office, events[0]), events[1..], run, facts, settings);
    }
  }

  /**
   * A recalculation from the facts and structures that the figures were computed from is harmless, whatever has been
   * adjusted, approved or revised for others in between.
   */
  lemma SameInputsAreHarmless(office: Office, events: seq<Event>, run: nat, facts: map<Id, Facts>, settings: Settings,
      later: map<Id, Facts>)
    requires run < |office.runs| && ComputedFrom(office.structures, office.runs[run], facts, settings)
    requires forall i :: 0 <= i < |events| ==> !(events[i].Recalculate? && events[i].run == run)
    requires forall i :: 0 <= i < |office.runs[run].items| ==>
      var id := office.runs[run].items[i].employeeId;
      && StructureOf(Steps(office, events).structures, id) == StructureOf(office.structures, id)
      && id in facts && id in later && later[id] == facts[id]
    ensures run < |Steps(office, events).runs|
    ensures HarmlessTo(Steps(office, events), Recalculate(run, later, settings), run)
  {
    StaysComputed(office.structures, office, events, run, facts, settings);
    var after := Steps(office, events);
    hide Steps;
    hide ComputeLineItem;
    var r := after.runs[run];
    forall i | 0 <= i < |r.items|
      ensures ComputesTo(after.structures, r.items[i], later, settings, r.period.month)
    {
      assert ComputesTo(office.structures, r.items[i], facts, settings, r.period.month);
    }
  }
}
