/** What a row of arrears is worth: the difference between two line items of the same employee, days and terms. */
module ArrearsPay {
  import opened LineItems
  import opened PayrollCalculator
  import opened PayrollRuns
  import opened StatutoryPay
  import opened WorkingDays
  import opened Wrappers

  /** The facts and settings of a line item for the days and under the terms of a revision, without overtime. */
  predicate UnderTerms(facts: Facts, settings: Settings, days: Days, terms: Terms) {
    && facts.days == days && facts.overtimeHours <= 0.0 && facts.ptSlabs == terms.ptSlabs
    && settings.epf == terms.epf && settings.esi == terms.esi
  }

  /** Before its tax, a line item's net pay is what the revision takes for it. */
  lemma NetBeforeTax(structure: Structure, facts: Facts, settings: Settings, days: Days, terms: Terms, month: int)
    requires UnderTerms(facts, settings, days, terms)
    requires ComputeLineItem(Some(structure), facts, settings, month).Ok?
    ensures var item := ComputeLineItem(Some(structure), facts, settings, month).value;
      NetUnder(structure, days, terms, month) == item.netPay + item.tds
  {
    var item := ComputeLineItem(Some(structure), facts, settings, month).value;
    ItemIsOfPay(structure, facts, settings, month);
    var input := InputOf(structure, facts, settings, month, item.tds);
    TaxOnlyMovesNetPay(RevisionInput(structure, days, terms, month), item.tds);
    SameButForSign(input);
    assert input.(allowNegativeNet := true) == RevisionInput(structure, days, terms, month).(tds := item.tds);
    TaxIsAsGiven(input);
    hide Compute;
    hide ComputeLineItem;
  }

  lemma SameButForSign(input: Input)
    ensures Compute(input.(allowNegativeNet := true)) == Compute(input)
  {
  }

  /**
   * A row is worth what the employee's line item for the paid days would be under the new structure less what it would
   * be under the old one: net pay, and before tax if there is any.
   */
  lemma RowIsDifferenceOfPay(run: Run, place: nat, id: Id, before: Structure, after: Structure, terms: Terms,
      facts: Facts, settings: Settings)
    requires id in EmployeesOf(run.items)
    requires UnderTerms(facts, settings, run.items[ItemIndex(run.items, id)].days, terms)
    requires ComputeLineItem(Some(before), facts, settings, run.period.month).Ok?
    requires ComputeLineItem(Some(after), facts, settings, run.period.month).Ok?
    ensures var was, now := ComputeLineItem(Some(before), facts, settings, run.period.month).value,
        ComputeLineItem(Some(after), facts, settings, run.period.month).value;
      var row := RowFor(run, place, id, before, after, terms);
      && row.employeeId == id && row.period == run.period && row.status == Unpaid
      && row.amount == (now.netPay + now.tds) - (was.netPay + was.tds)
      && (now.tds == 0.0 == was.tds ==> row.amount == now.netPay - was.netPay)
  {
    var days := run.items[ItemIndex(run.items, id)].days;
    NetBeforeTax(before, facts, settings, days, terms, run.period.month);
    NetBeforeTax(after, facts, settings, days, terms, run.period.month);
    hide NetUnder;
    hide ComputeLineItem;
    hide ItemIndex;
  }
}
