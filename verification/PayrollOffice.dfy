/** The payroll operations on the stored tables, each proved to make of them what `PayrollRuns` says. */
module PayrollOffice {
  import opened FinancialYear
  import opened LineItems
  import opened PayrollRuns
  import opened Sequences
  import opened Tds
  import opened Wrappers

  /** Which of the first `n` rows are unpaid arrears of the employee. */
  function UnpaidRows(arrears: seq<Arrears>, n: nat, id: Id): (rows: seq<nat>)
    requires n <= |arrears|
    ensures forall k :: 0 <= k < |rows| ==> rows[k] < n
    ensures forall i :: i in rows <==> 0 <= i < n && arrears[i].employeeId == id && arrears[i].status.Unpaid?
  {
    if n == 0 then []
    else
      var rows := UnpaidRows(arrears, n - 1, id);
      if arrears[n - 1].employeeId == id && arrears[n - 1].status.Unpaid? then rows + [n - 1] else rows
  }

  function RowAdjustment(row: Arrears): Adjustment {
    Adjustment("ARREARS", row.amount, ArrearsFor(row.period))
  }

  function RowAdjustments(arrears: seq<Arrears>, rows: seq<nat>): seq<Adjustment>
    requires forall k :: 0 <= k < |rows| ==> rows[k] < |arrears|
  {
    seq(|rows|, k requires 0 <= k < |rows| => RowAdjustment(arrears[rows[k]]))
  }

  lemma {:induction false} RowsAreUnpaid(arrears: seq<Arrears>, n: nat, id: Id)
    requires n <= |arrears|
    ensures RowAdjustments(arrears, UnpaidRows(arrears, n, id)) == UnpaidOf(arrears[..n], id)
  {
    if n > 0 {
      RowsAreUnpaid(arrears, n - 1, id);
      assert arrears[..n][..n - 1] == arrears[..n - 1];
      var rows := UnpaidRows(arrears, n - 1, id);
      if arrears[n - 1].employeeId == id && arrears[n - 1].status.Unpaid? {
        assert RowAdjustments(arrears, rows + [n - 1]) ==
          RowAdjustments(arrears, rows) + [RowAdjustment(arrears[n - 1])];
      }
    }
  }

  function RowsFor(byEmployee: map<Id, seq<nat>>, id: Id): seq<nat> {
    if id in byEmployee then byEmployee[id] else []
  }

  ghost predicate Grouped(arrears: seq<Arrears>, n: nat, byEmployee: map<Id, seq<nat>>) {
    n <= |arrears| && forall id :: RowsFor(byEmployee, id) == UnpaidRows(arrears, n, id)
  }

  method GroupUnpaid(arrears: seq<Arrears>) returns (byEmployee: map<Id, seq<nat>>)
    ensures Grouped(arrears, |arrears|, byEmployee)
  {
    byEmployee := map[];
    for i := 0 to |arrears|
      invariant Grouped(arrears, i, byEmployee)
    {
      var row := arrears[i];
      if row.status.Unpaid? {
        byEmployee := byEmployee[row.employeeId := RowsFor(byEmployee, row.employeeId) + [i]];
      }
    }
  }

  /** The rows of these employees that a draft folds. */
  ghost predicate FoldsExactly(arrears: seq<Arrears>, employees: set<Id>, folded: set<nat>) {
    forall i: nat :: i in folded <==> i < |arrears| && arrears[i].status.Unpaid? && arrears[i].employeeId in employees
  }

  function RowSet(rows: seq<nat>): set<nat> {
    set row | row in rows
  }

  lemma FoldOneMore(arrears: seq<Arrears>, employees: set<Id>, folded: set<nat>, id: Id, rows: seq<nat>)
    requires FoldsExactly(arrears, employees, folded) && rows == UnpaidRows(arrears, |arrears|, id)
    ensures FoldsExactly(arrears, employees + {id}, folded + RowSet(rows))
  {
    forall i: nat
      ensures i in folded + RowSet(rows) <==>
        i < |arrears| && arrears[i].status.Unpaid? && arrears[i].employeeId in employees + {id}
    {
      assert i in rows <==> 0 <= i < |arrears| && arrears[i].employeeId == id && arrears[i].status.Unpaid?;
    }
  }

  lemma OneMoreEmployee(items: seq<Item>, item: Item)
    ensures EmployeesOf(items + [item]) == EmployeesOf(items) + {item.employeeId}
  {
  }

  lemma DraftItemsOfOneMore(structures: map<Id, Structure>, arrears: seq<Arrears>, staff: seq<Facts>, n: nat,
      settings: Settings, month: int)
    requires n < |staff|
    ensures var items := DraftItems(structures, arrears, staff[..n], settings, month);
      var outcome := ComputeLineItem(StructureOf(structures, staff[n].employeeId), staff[n], settings, month);
      DraftItems(structures, arrears, staff[..n + 1], settings, month) == if outcome.Err? then items
        else items + [WithArrears(outcome.value, arrears)]
  {
    hide ComputeLineItem;
    assert staff[..n + 1][..n] == staff[..n];
  }

  /** Line items for everyone who can have one, and the rows of arrears that they pay. */
  method AssembleLineItems(structures: map<Id, Structure>, arrears: seq<Arrears>, staff: seq<Facts>, settings: Settings,
      month: int)
    returns (items: seq<Item>, folded: set<nat>)
    ensures items == DraftItems(structures, arrears, staff, settings, month)
    ensures FoldsExactly(arrears, EmployeesOf(items), folded)
  {
    hide *;
    var byEmployee := GroupUnpaid(arrears);
    items, folded := [], {};
    NothingAssembled(structures, arrears, staff, settings, month);
    for i := 0 to |staff|
      invariant items == DraftItems(structures, arrears, staff[..i], settings, month)
      invariant FoldsExactly(arrears, EmployeesOf(items), folded)
    {
      DraftItemsOfOneMore(structures, arrears, staff, i, settings, month);
      var outcome := ComputeLineItem(StructureOf(structures, staff[i].employeeId), staff[i], settings, month);
      if outcome.Ok? {
        var computed := outcome.value;
        var rows := RowsFor(byEmployee, computed.employeeId);
        GroupedRows(arrears, byEmployee, computed.employeeId);
        var adjustments := RowAdjustments(arrears, rows);
        var item := computed.(adjustments := adjustments, netPay := computed.netPay + Total(adjustments));
        AddsArrears(computed, arrears, item);
        FoldOneMore(arrears, EmployeesOf(items), folded, computed.employeeId, rows);
        OneMoreEmployee(items, item);
        items := items + [item];
        folded := folded + RowSet(rows);
      }
    }
    WholeSequence(staff);
  }

  lemma NothingAssembled(structures: map<Id, Structure>, arrears: seq<Arrears>, staff: seq<Facts>, settings: Settings,
      month: int)
    ensures DraftItems(structures, arrears, staff[..0], settings, month) == []
    ensures FoldsExactly(arrears, EmployeesOf([]), {})
  {
  }

  lemma GroupedRows(arrears: seq<Arrears>, byEmployee: map<Id, seq<nat>>, id: Id)
    requires Grouped(arrears, |arrears|, byEmployee)
    ensures var rows := RowsFor(byEmployee, id);
      && rows == UnpaidRows(arrears, |arrears|, id)
      && (forall k :: 0 <= k < |rows| ==> rows[k] < |arrears|)
      && RowAdjustments(arrears, rows) == UnpaidOf(arrears, id)
  {
    RowsAreUnpaid(arrears, |arrears|, id);
    WholeSequence(arrears);
    hide UnpaidOf;
    hide RowAdjustments;
  }

  lemma AddsArrears(computed: Item, arrears: seq<Arrears>, item: Item)
    requires var unpaid := UnpaidOf(arrears, computed.employeeId);
      item == computed.(adjustments := unpaid, netPay := computed.netPay + Total(unpaid))
    ensures item == WithArrears(computed, arrears)
  {
  }

  /** Marks the given rows as folded into the run. */
  method MarkFolded(arrears: seq<Arrears>, employees: set<Id>, folded: set<nat>, run: nat) returns (after: seq<Arrears>)
    requires FoldsExactly(arrears, employees, folded)
    ensures after == Fold(arrears, employees, run)
  {
    after := arrears;
    for i := 0 to |arrears|
      invariant |after| == |arrears|
      invariant forall k :: 0 <= k < i ==> after[k] == Fold(arrears, employees, run)[k]
      invariant forall k :: i <= k < |arrears| ==> after[k] == arrears[k]
    {
      if i in folded {
        after := after[i := after[i].(status := Folded(run))];
      }
    }
  }

  lemma RecalculatedOfOneMore(structures: map<Id, Structure>, items: seq<Item>, n: nat, facts: map<Id, Facts>,
      settings: Settings, month: int)
    requires n < |items| && Recalculated(structures, items[..n], facts, settings, month).Ok?
    ensures Recalculated(structures, items[..n + 1], facts, settings, month) ==
      var before, item := Recalculated(structures, items[..n], facts, settings, month).value, items[n];
      if item.employeeId !in facts then Err(EmployeeMissing(item.employeeId))
      else
        var outcome :=
          ComputeLineItem(StructureOf(structures, item.employeeId), facts[item.employeeId], settings, month);
        if outcome.Err? then Err(RecalculationFailed(item.employeeId, outcome.error))
        else Ok(before + [Recomputed(item, outcome.value)])
  {
    hide ComputeLineItem;
    assert items[..n + 1][..n] == items[..n];
  }

  /** Recomputes every item, keeping its adjustments; the first one that fails refuses the whole. */
  method RecalculateItems(structures: map<Id, Structure>, items: seq<Item>, facts: map<Id, Facts>, settings: Settings,
      month: int)
    returns (r: Result<seq<Item>, RunError>)
    ensures r == Recalculated(structures, items, facts, settings, month)
  {
    var updates: seq<Item> := [];
    assert items[..0] == [];
    hide ComputeLineItem;
    for i := 0 to |items|
      invariant Recalculated(structures, items[..i], facts, settings, month) == Ok(updates)
    {
      hide *;
      RecalculatedOfOneMore(structures, items, i, facts, settings, month);
      var item := items[i];
      if item.employeeId !in facts {
        FailsOnwards(structures, items, facts, settings, month, i + 1);
        return Err(EmployeeMissing(item.employeeId));
      }
      var outcome := ComputeLineItem(StructureOf(structures, item.employeeId), facts[item.employeeId], settings, month);
      if outcome.Err? {
        FailsOnwards(structures, items, facts, settings, month, i + 1);
        return Err(RecalculationFailed(item.employeeId, outcome.error));
      }
      updates := updates + [Recomputed(item, outcome.value)];
    }
    WholeSequence(items);
    return Ok(updates);
  }

  lemma {:induction false} FailsOnwards(structures: map<Id, Structure>, items: seq<Item>, facts: map<Id, Facts>,
      settings: Settings, month: int, n: nat)
    requires n <= |items| && Recalculated(structures, items[..n], facts, settings, month).Err?
    ensures Recalculated(structures, items, facts, settings, month) ==
      Recalculated(structures, items[..n], facts, settings, month)
    decreases |items| - n
  {
    hide ComputeLineItem;
    if n == |items| {
      assert items[..n] == items;
    } else {
      assert items[..n + 1][..n] == items[..n];
      FailsOnwards(structures, items, facts, settings, month, n + 1);
    }
  }

  lemma ArrearsOfOneMore(runs: seq<Run>, n: nat, id: Id, before: Structure, after: Structure, effective: Period,
      terms: Terms)
    requires n < |runs|
    ensures ArrearsOf(runs, 0, id, before, after, effective, terms) == []
    ensures var rows := ArrearsOf(runs, n, id, before, after, effective, terms);
      ArrearsOf(runs, n + 1, id, before, after, effective, terms) ==
      if Affected(runs[n], id, effective) then rows + [RowFor(runs[n], n, id, before, after, terms)] else rows
  {
    hide RowFor;
  }

  /** The arrears a revision leaves owing, from the runs that paid the employee under the superseded structure. */
  method FindArrears(runs: seq<Run>, id: Id, before: Structure, after: Structure, effective: Period, terms: Terms)
    returns (rows: seq<Arrears>)
    ensures rows == ArrearsOf(runs, |runs|, id, before, after, effective, terms)
  {
    hide RowFor;
    hide EmployeesOf;
    rows := [];
    for i := 0 to |runs|
      invariant rows == ArrearsOf(runs, i, id, before, after, effective, terms)
    {
      ArrearsOfOneMore(runs, i, id, before, after, effective, terms);
      hide ArrearsOf;
      if Affected(runs[i], id, effective) {
        rows := rows + [RowFor(runs[i], i, id, before, after, terms)];
      }
    }
  }

  class Payroll {
    var structures: map<Id, Structure>
    var runs: seq<Run>
    var arrears: seq<Arrears>

    ghost function Contents(): Office
      reads this
    {
      Office(structures, runs, arrears)
    }

    constructor ()
      ensures Contents() == Office(map[], [], []) && Sound(Contents())
    {
      structures, runs, arrears := map[], [], [];
    }

    /** Creates a run with a line item for everyone who can have one, folding their unpaid arrears into it. */
    method CreateDraft(request: DraftRequest, staff: seq<Facts>, settings: Settings) returns (r: Result<nat, RunError>)
      modifies this
      ensures Contents() == AfterDraft(old(Contents()), request, staff, settings)
      ensures r == if DraftError(old(Contents()), request).Some? then Err(DraftError(old(Contents()), request).value)
        else Ok(old(|runs|))
    {
      if request.activeAdmins < 2 {
        return Err(PayrollLocked);
      }
      if request.isReprocess && !request.hasReason {
        return Err(ReasonMissing);
      }
      if !request.isReprocess && PeriodTaken(runs, request.period) {
        return Err(RunExists);
      }
      var items, folded := AssembleLineItems(structures, arrears, staff, settings, request.period.month);
      hide DraftItems;
      hide FoldsExactly;
      var marked := MarkFolded(arrears, EmployeesOf(items), folded, |runs|);
      r := Ok(|runs|);
      runs := runs + [Run(request.period, request.isReprocess, Draft, {}, items)];
      arrears := marked;
    }

    method Recalculate(run: nat, facts: map<Id, Facts>, settings: Settings) returns (r: Result<(), RunError>)
      modifies this
      ensures Contents() == AfterRecalculation(old(Contents()), run, facts, settings)
      ensures r == if run >= |old(runs)| then Err(RunNotFound) else if !IsOpen(old(runs)[run]) then Err(WrongStatus)
        else
          var items := Recalculated(old(structures), old(runs)[run].items, facts, settings,
            old(runs)[run].period.month);
          if items.Err? then Err(items.error) else Ok(())
    {
      if run >= |runs| {
        return Err(RunNotFound);
      }
      if !runs[run].status.Draft? && !runs[run].status.Review? {
        return Err(WrongStatus);
      }
      var items := RecalculateItems(structures, runs[run].items, facts, settings, runs[run].period.month);
      hide Recalculated;
      if items.Err? {
        return Err(items.error);
      }
      runs := runs[run := runs[run].(items := items.value)];
      return Ok(());
    }

    method SetLineItemAdjustments(run: nat, id: Id, adjustments: seq<Adjustment>) returns (r: Result<(), RunError>)
      modifies this
      ensures Contents() == AfterAdjustment(old(Contents()), run, id, adjustments)
      ensures r == if run >= |old(runs)| then Err(RunNotFound) else if !IsOpen(old(runs)[run]) then Err(WrongStatus)
        else if id !in EmployeesOf(old(runs)[run].items) then Err(NoLineItem) else Ok(())
    {
      if run >= |runs| {
        return Err(RunNotFound);
      }
      if !runs[run].status.Draft? && !runs[run].status.Review? {
        return Err(WrongStatus);
      }
      var i := ItemIndex(runs[run].items, id);
      if i < 0 {
        return Err(NoLineItem);
      }
      var item := runs[run].items[i];
      var baseNet := item.gross - item.epfEmployee - item.esiEmployee - item.professionalTax - item.tds;
      item := item.(adjustments := adjustments, netPay := baseNet + Total(adjustments));
      runs := runs[run := runs[run].(items := runs[run].items[i := item])];
      return Ok(());
    }

    method SubmitForReview(run: nat) returns (r: Result<(), RunError>)
      modifies this
      ensures Contents() == AfterSubmission(old(Contents()), run)
      ensures r == if run >= |old(runs)| then Err(RunNotFound)
        else if old(runs)[run].status.Draft? then Ok(()) else Err(WrongStatus)
    {
      if run >= |runs| {
        return Err(RunNotFound);
      }
      if !runs[run].status.Draft? {
        return Err(WrongStatus);
      }
      runs := runs[run := runs[run].(status := Review)];
      return Ok(());
    }

    method Approve(run: nat, approver: Id, activeAdmins: nat) returns (r: Result<(), RunError>)
      modifies this
      ensures Contents() == AfterApproval(old(Contents()), run, approver, activeAdmins)
      ensures r == if activeAdmins < 2 then Err(PayrollLocked) else if run >= |old(runs)| then Err(RunNotFound)
        else if old(runs)[run].status.Review? then Ok(()) else Err(WrongStatus)
    {
      if activeAdmins < 2 {
        return Err(PayrollLocked);
      }
      if run >= |runs| {
        return Err(RunNotFound);
      }
      if !runs[run].status.Review? {
        return Err(WrongStatus);
      }
      runs := runs[run := runs[run].(approvals := runs[run].approvals + {approver})];
      if |runs[run].approvals| >= 2 {
        runs := runs[run := runs[run].(status := Approved)];
      }
      return Ok(());
    }

    /** Stores the payslips of those employees who can have one, before the run counts as processed. */
    method Process(run: nat, payslips: map<Id, string>) returns (r: Result<(), RunError>)
      modifies this
      ensures Contents() == AfterProcessing(old(Contents()), run, payslips)
      ensures r == if run >= |old(runs)| then Err(RunNotFound)
        else if old(runs)[run].status.Approved? then Ok(()) else Err(WrongStatus)
    {
      if run >= |runs| {
        return Err(RunNotFound);
      }
      if !runs[run].status.Approved? {
        return Err(WrongStatus);
      }
      var items := runs[run].items;
      ghost var before := items;
      for i := 0 to |items|
        invariant |items| == |before| && runs == old(runs) && structures == old(structures) && arrears == old(arrears)
        invariant forall k :: 0 <= k < i ==> items[k] == WithPayslips(before, payslips)[k]
        invariant forall k :: i <= k < |items| ==> items[k] == before[k]
      {
        if items[i].employeeId in payslips {
          items := items[i := items[i].(payslip := Some(payslips[items[i].employeeId]))];
        }
      }
      assert items == WithPayslips(before, payslips);
      runs := runs[run := runs[run].(items := items, status := Processed)];
      return Ok(());
    }

    method Disburse(run: nat) returns (r: Result<(), RunError>)
      modifies this
      ensures Contents() == AfterDisbursement(old(Contents()), run)
      ensures r == if run >= |old(runs)| then Err(RunNotFound)
        else if old(runs)[run].status.Processed? then Ok(()) else Err(WrongStatus)
    {
      if run >= |runs| {
        return Err(RunNotFound);
      }
      if !runs[run].status.Processed? {
        return Err(WrongStatus);
      }
      runs := runs[run := runs[run].(status := Disbursed)];
      return Ok(());
    }

    method CreateStructure(id: Id, components: Structure) returns (r: Result<(), RunError>)
      modifies this
      ensures Contents() == AfterCreation(old(Contents()), id, components)
      ensures r == if id in old(structures) then Err(StructureExists) else Ok(())
    {
      if id in structures {
        return Err(StructureExists);
      }
      structures := structures[id := components];
      return Ok(());
    }

    /** Supersedes the active structure, and finds what the runs that paid under it now owe. */
    method Revise(id: Id, components: Structure, effective: Period, terms: Terms) returns (r: Result<(), RunError>)
      modifies this
      ensures Contents() == AfterRevision(old(Contents()), id, components, effective, terms)
      ensures r == if id in old(structures) then Ok(()) else Err(NoStructure)
    {
      if id !in structures {
        return Err(NoStructure);
      }
      var rows := FindArrears(runs, id, structures[id], components, effective, terms);
      hide ArrearsOf;
      structures := structures[id := components];
      arrears := arrears + rows;
      return Ok(());
    }

    /** A plain edit while no paid run is affected, a revision otherwise: with the same outcome as a revision. */
    method Update(id: Id, components: Structure, effective: Period, terms: Terms) returns (r: Result<(), RunError>)
      modifies this
      ensures Contents() == AfterRevision(old(Contents()), id, components, effective, terms)
      ensures r == if id in old(structures) then Ok(()) else Err(NoStructure)
    {
      if id !in structures {
        return Err(NoStructure);
      }
      var affected := AnyAffected(runs, id, effective);
      if affected {
        r := Revise(id, components, effective, terms);
        return;
      }
      NothingOwed(runs, |runs|, id, structures[id], components, effective, terms);
      structures := structures[id := components];
      return Ok(());
    }
  }

  method AnyAffected(runs: seq<Run>, id: Id, effective: Period) returns (any: bool)
    ensures any <==> exists i :: 0 <= i < |runs| && Affected(runs[i], id, effective)
  {
    for i := 0 to |runs|
      invariant forall k :: 0 <= k < i ==> !Affected(runs[k], id, effective)
    {
      if Affected(runs[i], id, effective) {
        return true;
      }
    }
    return false;
  }

  lemma {:induction false} NothingOwed(runs: seq<Run>, n: nat, id: Id, before: Structure, after: Structure,
      effective: Period, terms: Terms)
    requires n <= |runs| && forall i :: 0 <= i < n ==> !Affected(runs[i], id, effective)
    ensures ArrearsOf(runs, n, id, before, after, effective, terms) == []
  {
    if n > 0 {
      NothingOwed(runs, n - 1, id, before, after, effective, terms);
    }
  }
}
