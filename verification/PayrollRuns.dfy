/**
 * Payroll runs from draft to disbursement, and the arrears that a draft folds in: what each operation makes of the
 * stored runs, salary structures and arrears, each operation being one atomic step.
 */
module PayrollRuns {
  import opened FinancialYear
  import opened LineItems
  import opened PayrollCalculator
  import opened Tds
  import opened WorkingDays
  import opened Wrappers

  type Item = LineItems.LineItem
  type Structure = seq<Component>

  datatype Run = Run(period: Period, isReprocess: bool, status: RunStatus, approvals: set<Id>, items: seq<Item>)

  datatype ArrearsStatus = Unpaid | Folded(run: nat)

  datatype Arrears = Arrears(employeeId: Id, period: Period, originalRun: nat, amount: real, status: ArrearsStatus)

  /** The tables; a run is known by its place in `runs`. */
  datatype Office = Office(structures: map<Id, Structure>, runs: seq<Run>, arrears: seq<Arrears>)

  datatype RunError = PayrollLocked | ReasonMissing | RunExists | RunNotFound | WrongStatus | EmployeeMissing(id: Id)
                    | RecalculationFailed(id: Id, why: Exclusion) | NoLineItem | NoStructure | StructureExists

  function StructureOf(structures: map<Id, Structure>, id: Id): Option<Structure> {
    if id in structures then Some(structures[id]) else None
  }

  function EmployeesOf(items: seq<Item>): set<Id> {
    set item | item in items :: item.employeeId
  }

  // ---- Drafting ----

  /** The employee's unpaid arrears, one adjustment per corrected period. */
  function UnpaidOf(arrears: seq<Arrears>, id: Id): seq<Adjustment> {
    if arrears == [] then []
    else
      var before, last := UnpaidOf(arrears[..|arrears| - 1], id), arrears[|arrears| - 1];
      if last.employeeId == id && last.status.Unpaid?
        then before + [Adjustment("ARREARS", last.amount, ArrearsFor(last.period))] else before
  }

  function WithArrears(item: Item, arrears: seq<Arrears>): Item {
    var unpaid := UnpaidOf(arrears, item.employeeId);
    item.(adjustments := unpaid, netPay := item.netPay + Total(unpaid))
  }

  /** A line item for everyone who can have one. */
  function DraftItems(structures: map<Id, Structure>, arrears: seq<Arrears>, staff: seq<Facts>, settings: Settings,
      month: int): seq<Item>
  {
    if staff == [] then []
    else
      var before, facts := DraftItems(structures, arrears, staff[..|staff| - 1], settings, month), staff[|staff| - 1];
      var outcome := ComputeLineItem(StructureOf(structures, facts.employeeId), facts, settings, month);
      if outcome.Err? then before else before + [WithArrears(outcome.value, arrears)]
  }

  /** The unpaid arrears of those employees are folded into the run. */
  function Fold(arrears: seq<Arrears>, employees: set<Id>, run: nat): seq<Arrears> {
    seq(|arrears|, i requires 0 <= i < |arrears| =>
      if arrears[i].status.Unpaid? && arrears[i].employeeId in employees then arrears[i].(status := Folded(run))
        else arrears[i])
  }

  datatype DraftRequest = DraftRequest(period: Period, isReprocess: bool, hasReason: bool, activeAdmins: nat)

  predicate PeriodTaken(runs: seq<Run>, period: Period) {
    exists i :: 0 <= i < |runs| && runs[i].period == period && !runs[i].isReprocess
  }

  function DraftError(office: Office, request: DraftRequest): Option<RunError> {
    if request.activeAdmins < 2 then Some(PayrollLocked)
    else if request.isReprocess && !request.hasReason then Some(ReasonMissing)
    else if !request.isReprocess && PeriodTaken(office.runs, request.period) then Some(RunExists)
    else None
  }

  function AfterDraft(office: Office, request: DraftRequest, staff: seq<Facts>, settings: Settings): Office {
    if DraftError(office, request).Some? then office
    else
      var items := DraftItems(office.structures, office.arrears, staff, settings, request.period.month);
      office.(runs := office.runs + [Run(request.period, request.isReprocess, Draft, {}, items)],
              arrears := Fold(office.arrears, EmployeesOf(items), |office.runs|))
  }

  // ---- Changing a draft ----

  predicate IsOpen(run: Run) {
    run.status.Draft? || run.status.Review?
  }

  /** The item with newly computed figures and the adjustments and payslip it had. */
  function Recomputed(item: Item, computed: Item): Item {
    computed.(employeeId := item.employeeId, adjustments := item.adjustments, payslip := item.payslip,
      netPay := computed.netPay + Total(item.adjustments))
  }

  function Recalculated(structures: map<Id, Structure>, items: seq<Item>, facts: map<Id, Facts>, settings: Settings,
      month: int)
    : Result<seq<Item>, RunError>
  {
    if items == [] then Ok([])
    else
      var before, item := Recalculated(structures, items[..|items| - 1], facts, settings, month), items[|items| - 1];
      if before.Err? then before
      else if item.employeeId !in facts then Err(EmployeeMissing(item.employeeId))
      else
        var outcome :=
          ComputeLineItem(StructureOf(structures, item.employeeId), facts[item.employeeId], settings, month);
        if outcome.Err? then Err(RecalculationFailed(item.employeeId, outcome.error))
        else Ok(before.value + [Recomputed(item, outcome.value)])
  }

  function AfterRecalculation(office: Office, run: nat, facts: map<Id, Facts>, settings: Settings): Office {
    if run >= |office.runs| || !IsOpen(office.runs[run]) then office
    else
      var r := office.runs[run];
      var items := Recalculated(office.structures, r.items, facts, settings, r.period.month);
      if items.Err? then office else office.(runs := office.runs[run := r.(items := items.value)])
  }

  function ItemIndex(items: seq<Item>, id: Id): (i: int)
    ensures -1 <= i < |items|
    ensures i >= 0 ==> items[i].employeeId == id
    ensures i < 0 <==> id !in EmployeesOf(items)
  {
    if items == [] then -1
    else if items[|items| - 1].employeeId == id then |items| - 1
    else
      assert items == items[..|items| - 1] + [items[|items| - 1]];
      ItemIndex(items[..|items| - 1], id)
  }

  function Adjusted(item: Item, adjustments: seq<Adjustment>): Item {
    item.(adjustments := adjustments, netPay := BaseNet(item) + Total(adjustments))
  }

  function AfterAdjustment(office: Office, run: nat, id: Id, adjustments: seq<Adjustment>): Office {
    if run >= |office.runs| || !IsOpen(office.runs[run]) || ItemIndex(office.runs[run].items, id) < 0 then office
    else
      var r := office.runs[run];
      var i := ItemIndex(r.items, id);
      office.(runs := office.runs[run := r.(items := r.items[i := Adjusted(r.items[i], adjustments)])])
  }

  // ---- Moving a run on ----

  function AfterSubmission(office: Office, run: nat): Office {
    if run >= |office.runs| || !office.runs[run].status.Draft? then office
    else office.(runs := office.runs[run := office.runs[run].(status := Review)])
  }

  /** Approvals are a set of accounts, and the second account makes the run approved. */
  function AfterApproval(office: Office, run: nat, approver: Id, activeAdmins: nat): Office {
    if activeAdmins < 2 || run >= |office.runs| || !office.runs[run].status.Review? then office
    else
      var approvals := office.runs[run].approvals + {approver};
      office.(runs :=
        office.runs[run :=
          office.runs[run].(approvals := approvals, status := if |approvals| >= 2 then Approved else Review)])
  }

  function WithPayslips(items: seq<Item>, payslips: map<Id, string>): seq<Item> {
    seq(|items|, i requires 0 <= i < |items| =>
      if items[i].employeeId in payslips then items[i].(payslip := Some(payslips[items[i].employeeId])) else items[i])
  }

  /** Payslips are stored for those employees who can have one, then the run is processed. */
  function AfterProcessing(office: Office, run: nat, payslips: map<Id, string>): Office {
    if run >= |office.runs| || !office.runs[run].status.Approved? then office
    else
      var r := office.runs[run];
      office.(runs := office.runs[run := r.(items := WithPayslips(r.items, payslips), status := Processed)])
  }

  function AfterDisbursement(office: Office, run: nat): Office {
    if run >= |office.runs| || !office.runs[run].status.Processed? then office
    else office.(runs := office.runs[run := office.runs[run].(status := Disbursed)])
  }

  // ---- Salary structures ----

  datatype Terms = Terms(epf: Epf, esi: Esi, ptSlabs: seq<PtSlab>)

  function RevisionInput(components: Structure, days: Days, terms: Terms, month: int): Input {
    Input(components, days.workingDays, days.payableDays, terms.epf, terms.esi, terms.ptSlabs, month, None, 0.0, true)
  }

  /** The net pay for those days under a structure, without tax, overtime and adjustments. */
  function NetUnder(components: Structure, days: Days, terms: Terms, month: int): real {
    Compute(RevisionInput(components, days, terms, month)).netPay
  }

  /** The employee was paid by this run for a period at or after the effective one. */
  predicate Affected(run: Run, id: Id, effective: Period) {
    && !run.isReprocess && (run.status.Processed? || run.status.Disbursed?)
    && Ordinal(run.period) >= Ordinal(effective) && id in EmployeesOf(run.items)
  }

  /**
   * What the period would pay under the new structure less what it pays under the old one, for the days it was paid
   * for.
   */
  function RowFor(run: Run, place: nat, id: Id, before: Structure, after: Structure, terms: Terms): Arrears
    requires id in EmployeesOf(run.items)
  {
    var days := run.items[ItemIndex(run.items, id)].days;
    Arrears(id, run.period, place,
      NetUnder(after, days, terms, run.period.month) - NetUnder(before, days, terms, run.period.month), Unpaid)
  }

  /** One arrears row for each of the first `n` runs that is affected. */
  function ArrearsOf(runs: seq<Run>, n: nat, id: Id, before: Structure, after: Structure, effective: Period,
      terms: Terms): seq<Arrears>
    requires n <= |runs|
  {
    if n == 0 then []
    else
      var rows, run := ArrearsOf(runs, n - 1, id, before, after, effective, terms), runs[n - 1];
      if Affected(run, id, effective) then rows + [RowFor(run, n - 1, id, before, after, terms)] else rows
  }

  function AfterCreation(office: Office, id: Id, components: Structure): Office {
    if id in office.structures then office else office.(structures := office.structures[id := components])
  }

  function AfterRevision(office: Office, id: Id, components: Structure, effective: Period, terms: Terms): Office {
    if id !in office.structures then office
    else office.(structures := office.structures[id := components],
                 arrears := office.arrears +
                   ArrearsOf(office.runs, |office.runs|, id, office.structures[id], components, effective, terms))
  }

  // ---- Steps ----

  datatype Event = CreateDraft(request: DraftRequest, staff: seq<Facts>, settings: Settings)
                 | Recalculate(run: nat, facts: map<Id, Facts>, settings: Settings)
                 | Adjust(run: nat, id: Id, adjustments: seq<Adjustment>)
                 | Submit(run: nat)
                 | Approve(run: nat, approver: Id, activeAdmins: nat)
                 | Process(run: nat, payslips: map<Id, string>)
                 | Disburse(run: nat)
                 | CreateStructure(id: Id, components: Structure)
                 | Revise(id: Id, components: Structure, effective: Period, terms: Terms)

  /** What an event makes of the tables; a refused one changes nothing. */
  function Step(office: Office, event: Event): Office {
    match event
    case CreateDraft(request, staff, settings) => AfterDraft(office, request, staff, settings)
    case Recalculate(run, facts, settings) => AfterRecalculation(office, run, facts, settings)
    case Adjust(run, id, adjustments) => AfterAdjustment(office, run, id, adjustments)
    case Submit(run) => AfterSubmission(office, run)
    case Approve(run, approver, activeAdmins) => AfterApproval(office, run, approver, activeAdmins)
    case Process(run, payslips) => AfterProcessing(office, run, payslips)
    case Disburse(run) => AfterDisbursement(office, run)
    case CreateStructure(id, components) => AfterCreation(office, id, components)
    case Revise(id, components, effective, terms) => AfterRevision(office, id, components, effective, terms)
  }

  function Steps(office: Office, events: seq<Event>): Office
    decreases |events|
  {
    if events == [] then office else Steps(Step(office, events[0]), events[1..])
  }

  // ---- What every step keeps ----

  predicate SoundItem(item: Item) {
    Balanced(item) && 0 <= item.days.payableDays <= item.days.workingDays
  }

  ghost predicate SoundItems(items: seq<Item>) {
    && (forall i :: 0 <= i < |items| ==> SoundItem(items[i]))
    && forall i, j :: 0 <= i < j < |items| ==> items[i].employeeId != items[j].employeeId
  }

  function Rank(status: RunStatus): nat {
    match status
    case Draft => 0
    case Review => 1
    case Approved => 2
    case Processed => 3
    case Disbursed => 4
  }

  /** Nobody has approved a draft, at most one a run under review, and two or more different ones any later run. */
  predicate RightlyApproved(run: Run) {
    match run.status
    case Draft => run.approvals == {}
    case Review => |run.approvals| <= 1
    case _ => |run.approvals| >= 2
  }

  ghost predicate SoundRun(run: Run) {
    SoundItems(run.items) && RightlyApproved(run)
  }

  ghost predicate Sound(office: Office) {
    && (forall i :: 0 <= i < |office.runs| ==> SoundRun(office.runs[i]))
    && (forall i, j :: 0 <= i < j < |office.runs| && office.runs[i].period == office.runs[j].period ==>
          office.runs[i].isReprocess || office.runs[j].isReprocess)
    && (forall i ::
         0 <= i < |office.arrears| && office.arrears[i].status.Folded? ==> office.arrears[i].status.run < |office.runs|)
  }

  /** The staff list names everybody once, as the employee table does, and facts are filed under their employee. */
  ghost predicate WellFormed(event: Event) {
    match event
    case CreateDraft(_, staff, _) => forall i, j :: 0 <= i < j < |staff| ==> staff[i].employeeId != staff[j].employeeId
    case Recalculate(_, facts, _) => forall id :: id in facts ==> facts[id].employeeId == id
    case _ => true
  }

  lemma ComputedIsSound(structure: Option<Structure>, facts: Facts, settings: Settings, month: int)
    requires ComputeLineItem(structure, facts, settings, month).Ok?
    ensures var item := ComputeLineItem(structure, facts, settings, month).value;
      SoundItem(item) && item.employeeId == facts.employeeId && item.adjustments == [] && item.netPay == BaseNet(item)
  {
    LineItemIsConsistent(structure, facts, settings, month);
    hide Compute;
    hide MonthlyTds;
  }

  lemma {:induction false} DraftIsSound(structures: map<Id, Structure>, arrears: seq<Arrears>, staff: seq<Facts>,
      settings: Settings, month: int)
    requires forall i, j :: 0 <= i < j < |staff| ==> staff[i].employeeId != staff[j].employeeId
    ensures var items := DraftItems(structures, arrears, staff, settings, month);
      && SoundItems(items)
      && (forall i :: 0 <= i < |items| ==> exists k :: 0 <= k < |staff| && items[i].employeeId == staff[k].employeeId)
      && (forall i :: 0 <= i < |items| ==> items[i].adjustments == UnpaidOf(arrears, items[i].employeeId))
  {
    hide ComputeLineItem;
    hide UnpaidOf;
    if staff != [] {
      var rest, facts := staff[..|staff| - 1], staff[|staff| - 1];
      DraftIsSound(structures, arrears, rest, settings, month);
      var outcome := ComputeLineItem(StructureOf(structures, facts.employeeId), facts, settings, month);
      if outcome.Ok? {
        ComputedIsSound(StructureOf(structures, facts.employeeId), facts, settings, month);
      }
      forall i | 0 <= i < |DraftItems(structures, arrears, rest, settings, month)|
        ensures DraftItems(structures, arrears, rest, settings, month)[i].employeeId != facts.employeeId
      {
      }
    }
  }

  /** What a recalculation leaves alone. */
  predicate SameExtras(before: Item, after: Item) {
    after.employeeId == before.employeeId && after.adjustments == before.adjustments && after.payslip == before.payslip
  }

  lemma {:induction false} RecalculationIsSound(structures: map<Id, Structure>, items: seq<Item>, facts: map<Id, Facts>,
      settings: Settings, month: int)
    requires SoundItems(items) && Recalculated(structures, items, facts, settings, month).Ok?
    requires forall id :: id in facts ==> facts[id].employeeId == id
    ensures var after := Recalculated(structures, items, facts, settings, month).value;
      && |after| == |items|
      && (forall i :: 0 <= i < |items| ==> SameExtras(items[i], after[i]))
      && SoundItems(after)
  {
    hide ComputeLineItem;
    if items != [] {
      var rest, item := items[..|items| - 1], items[|items| - 1];
      RecalculationIsSound(structures, rest, facts, settings, month);
      ComputedIsSound(StructureOf(structures, item.employeeId), facts[item.employeeId], settings, month);
    }
  }

  /** Replacing a run by a sound one of the same period keeps everything sound. */
  lemma ReplaceRun(office: Office, run: nat, after: Run)
    requires Sound(office) && run < |office.runs| && SoundRun(after)
    requires after.period == office.runs[run].period && after.isReprocess == office.runs[run].isReprocess
    ensures Sound(office.(runs := office.runs[run := after]))
  {
    hide SoundRun;
  }

  lemma DraftKeepsSound(office: Office, request: DraftRequest, staff: seq<Facts>, settings: Settings)
    requires Sound(office) && WellFormed(CreateDraft(request, staff, settings))
    ensures Sound(AfterDraft(office, request, staff, settings))
  {
    DraftIsSound(office.structures, office.arrears, staff, settings, request.period.month);
    hide DraftItems;
    hide SoundItems;
  }

  lemma {:induction false} NewRowsAreUnpaid(runs: seq<Run>, n: nat, id: Id, before: Structure, after: Structure,
      effective: Period, terms: Terms)
    requires n <= |runs|
    ensures forall row :: row in ArrearsOf(runs, n, id, before, after, effective, terms) ==>
      row.status == Unpaid && row.employeeId == id && row.originalRun < n &&
        Affected(runs[row.originalRun], id, effective)
  {
    hide NetUnder;
    if n > 0 {
      NewRowsAreUnpaid(runs, n - 1, id, before, after, effective, terms);
    }
  }

  lemma StepKeepsSound(office: Office, event: Event)
    requires Sound(office) && WellFormed(event)
    ensures Sound(Step(office, event))
  {
    hide ComputeLineItem;
    hide Sound;
    match event
    case CreateDraft(request, staff, settings) =>
      DraftKeepsSound(office, request, staff, settings);
    case Recalculate(run, facts, settings) =>
      RecalculateKeepsSound(office, run, facts, settings);
    case Adjust(run, id, adjustments) =>
      AdjustKeepsSound(office, run, id, adjustments);
    case CreateStructure(id, components) =>
      StructuresKeepSound(office, Step(office, event).structures, []);
      assert office.arrears + [] == office.arrears;
    case Revise(id, components, effective, terms) =>
      if id in office.structures {
        NewRowsAreUnpaid(office.runs, |office.runs|, id, office.structures[id], components, effective, terms);
        StructuresKeepSound(office, Step(office, event).structures,
          ArrearsOf(office.runs, |office.runs|, id, office.structures[id], components, effective, terms));
      }
    case _ =>
      MovingKeepsSound(office, event);
  }

  lemma RecalculateKeepsSound(office: Office, run: nat, facts: map<Id, Facts>, settings: Settings)
    requires Sound(office) && WellFormed(Recalculate(run, facts, settings))
    ensures Sound(AfterRecalculation(office, run, facts, settings))
  {
    hide Recalculated;
    if run < |office.runs| && IsOpen(office.runs[run]) {
      var r := office.runs[run];
      var items := Recalculated(office.structures, r.items, facts, settings, r.period.month);
      if items.Ok? {
        RecalculationIsSound(office.structures, r.items, facts, settings, r.period.month);
        ReplaceRun(office, run, r.(items := items.value));
      }
    }
  }

  lemma AdjustKeepsSound(office: Office, run: nat, id: Id, adjustments: seq<Adjustment>)
    requires Sound(office)
    ensures Sound(AfterAdjustment(office, run, id, adjustments))
  {
    if run < |office.runs| && IsOpen(office.runs[run]) && ItemIndex(office.runs[run].items, id) >= 0 {
      var r := office.runs[run];
      var i := ItemIndex(r.items, id);
      ReplaceRun(office, run, r.(items := r.items[i := Adjusted(r.items[i], adjustments)]));
    }
  }

  lemma StructuresKeepSound(office: Office, structures: map<Id, Structure>, rows: seq<Arrears>)
    requires Sound(office) && forall row :: row in rows ==> row.status == Unpaid
    ensures Sound(Office(structures, office.runs, office.arrears + rows))
  {
    hide SoundRun;
  }

  lemma MovingKeepsSound(office: Office, event: Event)
    requires Sound(office) && (event.Submit? || event.Approve? || event.Process? || event.Disburse?)
    ensures Sound(Step(office, event))
  {
    if event.run < |office.runs| && Step(office, event) != office {
      var r := office.runs[event.run];
      match event
      case Submit(_) =>
        ReplaceRun(office, event.run, r.(status := Review));
      case Approve(_, approver, _) =>
        OneMoreApproval(r.approvals, approver);
        var approvals := r.approvals + {approver};
        ReplaceRun(office, event.run,
          r.(approvals := approvals, status := if |approvals| >= 2 then Approved else Review));
      case Process(_, payslips) =>
        ReplaceRun(office, event.run, r.(items := WithPayslips(r.items, payslips), status := Processed));
      case Disburse(_) =>
        ReplaceRun(office, event.run, r.(status := Disbursed));
    }
  }

  lemma OneMoreApproval(approvals: set<Id>, approver: Id)
    ensures |approvals| <= |approvals + {approver}| <= |approvals| + 1
    ensures approver !in approvals ==> |approvals + {approver}| == |approvals| + 1
  {
    if approver in approvals {
      assert approvals + {approver} == approvals;
    }
  }

  ghost predicate AllWellFormed(events: seq<Event>) {
    forall i :: 0 <= i < |events| ==> WellFormed(events[i])
  }

  /** In every state a run of events reaches, line items balance and no run got past review without two approvers. */
  lemma {:induction false} RunsStaySound(office: Office, events: seq<Event>)
    requires Sound(office) && AllWellFormed(events)
    ensures Sound(Steps(office, events))
    decreases |events|
  {
    hide Sound;
    hide Step;
    if events != [] {
      StepKeepsSound(office, events[0]);
      RunsStaySound(Step(office, events[0]), events[1..]);
    }
  }

  // ---- Runs only move forward, and their figures freeze ----

  /** The same figures, whatever the payslips. */
  ghost predicate SameFigures(before: seq<Item>, after: seq<Item>) {
    |after| == |before| && forall i :: 0 <= i < |before| ==> after[i].(payslip := before[i].payslip) == before[i]
  }

  /** How a run may have changed: never backwards, never in its figures once approved, in nothing once processed. */
  ghost predicate RunAdvances(before: Run, after: Run) {
    && after.period == before.period && after.isReprocess == before.isReprocess
    && Rank(before.status) <= Rank(after.status)
    && before.approvals <= after.approvals
    && (Rank(before.status) >= 2 ==> SameFigures(before.items, after.items) && after.approvals == before.approvals)
    && (Rank(before.status) >= 3 ==> after.items == before.items)
  }

  /** A row of arrears is never rewritten; once folded into a run it stays there. */
  ghost predicate RowAdvances(before: Arrears, after: Arrears) {
    after.(status := before.status) == before && (before.status.Folded? ==> after == before)
  }

  ghost predicate Advances(before: Office, after: Office) {
    && |before.runs| <= |after.runs|
    && (forall i :: 0 <= i < |before.runs| ==> RunAdvances(before.runs[i], after.runs[i]))
    && |before.arrears| <= |after.arrears|
    && (forall i :: 0 <= i < |before.arrears| ==> RowAdvances(before.arrears[i], after.arrears[i]))
  }

  lemma StepAdvances(office: Office, event: Event)
    ensures Advances(office, Step(office, event))
  {
    hide ComputeLineItem;
    hide Recalculated;
    hide DraftItems;
    hide ArrearsOf;
    hide ItemIndex;
    hide EmployeesOf;
  }

  lemma AdvancesOn(a: Office, b: Office, c: Office)
    requires Advances(a, b) && Advances(b, c)
    ensures Advances(a, c)
  {
    forall i | 0 <= i < |a.runs|
      ensures RunAdvances(a.runs[i], c.runs[i])
    {
      assert RunAdvances(a.runs[i], b.runs[i]) && RunAdvances(b.runs[i], c.runs[i]);
    }
    forall i | 0 <= i < |a.arrears|
      ensures RowAdvances(a.arrears[i], c.arrears[i])
    {
      assert RowAdvances(a.arrears[i], b.arrears[i]) && RowAdvances(b.arrears[i], c.arrears[i]);
    }
  }

  /** Over any events, whatever they are: statuses move forward, approved figures and folded arrears stay. */
  lemma {:induction false} EventsAdvance(office: Office, events: seq<Event>)
    ensures Advances(office, Steps(office, events))
    decreases |events|
  {
    hide Step;
    if events != [] {
      var next := Step(office, events[0]);
      StepAdvances(office, events[0]);
      EventsAdvance(next, events[1..]);
      hide Advances;
      AdvancesOn(office, next, Steps(next, events[1..]));
    }
  }

  // ---- Arrears are conserved ----

  ghost function SumOf(arrears: seq<Arrears>, unpaidOnly: bool): real {
    if arrears == [] then 0.0
    else
      var last := arrears[|arrears| - 1];
      SumOf(arrears[..|arrears| - 1], unpaidOnly) + if unpaidOnly && !last.status.Unpaid? then 0.0 else last.amount
  }

  /** What the items' adjustments come to. */
  ghost function AdjustmentsTotal(items: seq<Item>): real {
    if items == [] then 0.0 else AdjustmentsTotal(items[..|items| - 1]) + Total(items[|items| - 1].adjustments)
  }

  /** What a step puts into new drafts as arrears. */
  ghost function PaidBy(office: Office, event: Event): real {
    var after := Step(office, event);
    if event.CreateDraft? && |after.runs| > |office.runs| then AdjustmentsTotal(after.runs[|office.runs|].items)
      else 0.0
  }

  /** What a step finds owing. */
  ghost function OwedBy(office: Office, event: Event): real {
    if event.Revise? && event.id in office.structures then
      SumOf(ArrearsOf(office.runs, |office.runs|, event.id, office.structures[event.id], event.components,
        event.effective, event.terms), true)
    else 0.0
  }

  /** Unpaid arrears of these employees. */
  ghost function UnpaidAmong(arrears: seq<Arrears>, employees: set<Id>): real {
    if arrears == [] then 0.0
    else
      var last := arrears[|arrears| - 1];
      UnpaidAmong(arrears[..|arrears| - 1], employees) + if last.status.Unpaid? && last.employeeId in employees
        then last.amount else 0.0
  }

  lemma {:induction false} UnpaidOfOne(arrears: seq<Arrears>, id: Id, employees: set<Id>)
    requires id !in employees
    ensures UnpaidAmong(arrears, employees + {id}) == UnpaidAmong(arrears, employees) + Total(UnpaidOf(arrears, id))
  {
    if arrears != [] {
      var rest, last := arrears[..|arrears| - 1], arrears[|arrears| - 1];
      UnpaidOfOne(rest, id, employees);
      var adjustment := Adjustment("ARREARS", last.amount, ArrearsFor(last.period));
      assert (UnpaidOf(rest, id) + [adjustment])[..|UnpaidOf(rest, id)|] == UnpaidOf(rest, id);
    }
  }

  lemma {:induction false} NobodyIsUnpaid(arrears: seq<Arrears>)
    ensures UnpaidAmong(arrears, {}) == 0.0
  {
    if arrears != [] {
      NobodyIsUnpaid(arrears[..|arrears| - 1]);
    }
  }

  /** The items of a draft carry exactly the unpaid arrears of the employees who have one. */
  lemma {:induction false} ItemsCarryArrears(arrears: seq<Arrears>, items: seq<Item>)
    requires forall i :: 0 <= i < |items| ==> items[i].adjustments == UnpaidOf(arrears, items[i].employeeId)
    requires forall i, j :: 0 <= i < j < |items| ==> items[i].employeeId != items[j].employeeId
    ensures AdjustmentsTotal(items) == UnpaidAmong(arrears, EmployeesOf(items))
  {
    if items == [] {
      assert EmployeesOf(items) == {};
      NobodyIsUnpaid(arrears);
    } else {
      var rest, last := items[..|items| - 1], items[|items| - 1];
      ItemsCarryArrears(arrears, rest);
      hide UnpaidOf;
      hide UnpaidAmong;
      hide Total;
      assert items == rest + [last];
      assert EmployeesOf(items) == EmployeesOf(rest) + {last.employeeId};
      UnpaidOfOne(arrears, last.employeeId, EmployeesOf(rest));
    }
  }

  lemma {:induction false} FoldTakesUnpaid(arrears: seq<Arrears>, employees: set<Id>, run: nat)
    ensures SumOf(Fold(arrears, employees, run), true) == SumOf(arrears, true) - UnpaidAmong(arrears, employees)
    ensures SumOf(Fold(arrears, employees, run), false) == SumOf(arrears, false)
  {
    if arrears != [] {
      var rest := arrears[..|arrears| - 1];
      FoldTakesUnpaid(rest, employees, run);
      assert Fold(arrears, employees, run)[..|arrears| - 1] == Fold(rest, employees, run);
    }
  }

  lemma {:induction false} SumOfBoth(a: seq<Arrears>, b: seq<Arrears>, unpaidOnly: bool)
    ensures SumOf(a + b, unpaidOnly) == SumOf(a, unpaidOnly) + SumOf(b, unpaidOnly)
  {
    if b == [] {
      assert a + b == a;
    } else {
      assert (a + b)[..|a + b| - 1] == a + b[..|b| - 1];
      SumOfBoth(a, b[..|b| - 1], unpaidOnly);
    }
  }

  /** What is unpaid after a step is what was, and what the step found owing, less what it paid. */
  lemma StepConservesArrears(office: Office, event: Event)
    requires WellFormed(event)
    ensures SumOf(Step(office, event).arrears, true) ==
      SumOf(office.arrears, true) + OwedBy(office, event) - PaidBy(office, event)
  {
    hide ComputeLineItem;
    hide Recalculated;
    hide ItemIndex;
    hide SumOf;
    if event.CreateDraft? && DraftError(office, event.request).None? {
      var month := event.request.period.month;
      var items := DraftItems(office.structures, office.arrears, event.staff, event.settings, month);
      DraftIsSound(office.structures, office.arrears, event.staff, event.settings, month);
      ItemsCarryArrears(office.arrears, items);
      FoldTakesUnpaid(office.arrears, EmployeesOf(items), |office.runs|);
    } else if event.Revise? && event.id in office.structures {
      SumOfBoth(office.arrears,
        ArrearsOf(office.runs, |office.runs|, event.id, office.structures[event.id], event.components,
        event.effective, event.terms), true);
    }
  }

  ghost function PaidOver(office: Office, events: seq<Event>): real
    decreases |events|
  {
    if events == [] then 0.0 else PaidBy(office, events[0]) + PaidOver(Step(office, events[0]), events[1..])
  }

  ghost function OwedOver(office: Office, events: seq<Event>): real
    decreases |events|
  {
    if events == [] then 0.0 else OwedBy(office, events[0]) + OwedOver(Step(office, events[0]), events[1..])
  }

  /** Over any events every rupee of arrears found owing is either still unpaid or was put into exactly one draft. */
  lemma {:induction false} ArrearsAreConserved(office: Office, events: seq<Event>)
    requires AllWellFormed(events)
    ensures SumOf(Steps(office, events).arrears, true) ==
      SumOf(office.arrears, true) + OwedOver(office, events) - PaidOver(office, events)
    decreases |events|
  {
    hide Step;
    hide PaidBy;
    hide OwedBy;
    if events != [] {
      StepConservesArrears(office, events[0]);
      ArrearsAreConserved(Step(office, events[0]), events[1..]);
    }
  }

  /** A draft pays an employee's arrears in full, row by row, and folds exactly the rows it pays. */
  lemma DraftPaysAndFolds(office: Office, request: DraftRequest, staff: seq<Facts>, settings: Settings)
    requires WellFormed(CreateDraft(request, staff, settings)) && DraftError(office, request).None?
    ensures var after := AfterDraft(office, request, staff, settings);
      var run := |office.runs|;
      && |after.runs| == run + 1 && |after.arrears| == |office.arrears|
      && (forall item :: item in after.runs[run].items ==>
            item.adjustments == UnpaidOf(office.arrears, item.employeeId) &&
              UnpaidOf(after.arrears, item.employeeId) == [])
      && (forall i :: 0 <= i < |office.arrears| ==>
            (after.arrears[i].status == Folded(run) && office.arrears[i].status != Folded(run) <==>
             office.arrears[i].status.Unpaid? && office.arrears[i].employeeId in EmployeesOf(after.runs[run].items)))
  {
    var month := request.period.month;
    var items := DraftItems(office.structures, office.arrears, staff, settings, month);
    DraftIsSound(office.structures, office.arrears, staff, settings, month);
    hide DraftItems;
    hide UnpaidOf;
    forall item | item in items
      ensures UnpaidOf(Fold(office.arrears, EmployeesOf(items), |office.runs|), item.employeeId) == []
    {
      NothingLeftUnpaid(office.arrears, EmployeesOf(items), |office.runs|, item.employeeId);
    }
  }

  lemma {:induction false} NothingLeftUnpaid(arrears: seq<Arrears>, employees: set<Id>, run: nat, id: Id)
    requires id in employees
    ensures UnpaidOf(Fold(arrears, employees, run), id) == []
  {
    if arrears != [] {
      var rest := arrears[..|arrears| - 1];
      NothingLeftUnpaid(rest, employees, run, id);
      assert Fold(arrears, employees, run)[..|arrears| - 1] == Fold(rest, employees, run);
    }
  }

  /**
   * A draft makes a new run exactly when two admins are active, and it is either the first ordinary run of its period
   * or a reprocessing with a reason.
   */
  lemma DraftMakesRun(office: Office, request: DraftRequest, staff: seq<Facts>, settings: Settings)
    ensures var after := Step(office, CreateDraft(request, staff, settings));
      (if request.activeAdmins >= 2 && (if request.isReprocess then request.hasReason
           else forall i :: 0 <= i < |office.runs| && office.runs[i].period == request.period ==>
             office.runs[i].isReprocess)
       then |after.runs| == |office.runs| + 1 && after.runs[|office.runs|].period == request.period &&
         after.runs[|office.runs|].isReprocess == request.isReprocess && after.runs[|office.runs|].status.Draft?
       else after == office)
  {
    hide DraftItems;
  }
}
