/** What successive salary revisions leave owing for one period an employee was already paid for. */
module SalaryRevisions {
  import opened FinancialYear
  import opened LineItems
  import opened PayrollRuns
  import opened Sequences

  /** All arrears ever found for the employee and the run. */
  ghost function FoundFor(arrears: seq<Arrears>, id: Id, run: nat): real {
    if arrears == [] then 0.0
    else
      var last := arrears[|arrears| - 1];
      FoundFor(arrears[..|arrears| - 1], id, run) + if last.employeeId == id && last.originalRun == run then last.amount
        else 0.0
  }

  /** The run paid the employee and is final. */
  ghost predicate Paid(office: Office, id: Id, run: nat) {
    && id in office.structures && run < |office.runs| && !office.runs[run].isReprocess
    && Rank(office.runs[run].status) >= 3 && id in EmployeesOf(office.runs[run].items)
  }

  /** The employee's net pay for the days of that run, were it paid under this structure. */
  ghost function NetFor(office: Office, id: Id, run: nat, components: Structure, terms: Terms): real
    requires Paid(office, id, run)
  {
    var r := office.runs[run];
    NetUnder(components, r.items[ItemIndex(r.items, id)].days, terms, r.period.month)
  }

  /** The employee's structures are revised on these terms only. */
  ghost predicate OnTerms(events: seq<Event>, id: Id, terms: Terms) {
    forall i :: 0 <= i < |events| && events[i].Revise? && events[i].id == id ==> events[i].terms == terms
  }

  /** What revisions effective after the run's period change, and leave out of its arrears. */
  ghost function LeftOut(office: Office, events: seq<Event>, id: Id, run: nat, terms: Terms): real
    requires Paid(office, id, run)
    decreases |events|
  {
    if events == [] then 0.0
    else
      var event := events[0];
      StillPaid(office, event, id, run);
      (if event.Revise? && event.id == id && Ordinal(office.runs[run].period) < Ordinal(event.effective)
       then NetFor(office, id, run, event.components, terms) - NetFor(office, id, run, office.structures[id], terms)
         else 0.0)
      + LeftOut(Step(office, event), events[1..], id, run, terms)
  }

  lemma StillPaid(office: Office, event: Event, id: Id, run: nat)
    requires Paid(office, id, run)
    ensures Paid(Step(office, event), id, run)
    ensures Step(office, event).runs[run].items == office.runs[run].items
    ensures Step(office, event).runs[run].period == office.runs[run].period
  {
    StepAdvances(office, event);
    StructuresStay(office, event, id);
    hide Step;
    assert RunAdvances(office.runs[run], Step(office, event).runs[run]);
  }

  lemma StructuresStay(office: Office, event: Event, id: Id)
    requires id in office.structures
    ensures id in Step(office, event).structures
    ensures !(event.Revise? && event.id == id) ==> Step(office, event).structures[id] == office.structures[id]
    ensures event.Revise? && event.id == id ==> Step(office, event).structures[id] == event.components
  {
    hide DraftItems;
    hide Recalculated;
    hide ArrearsOf;
    hide ItemIndex;
  }

  lemma {:induction false} FoundForBoth(a: seq<Arrears>, b: seq<Arrears>, id: Id, run: nat)
    ensures FoundFor(a + b, id, run) == FoundFor(a, id, run) + FoundFor(b, id, run)
  {
    if b == [] {
      assert a + b == a;
    } else {
      FrontOfConcat(a, b);
      FoundForBoth(a, b[..|b| - 1], id, run);
    }
  }

  lemma {:induction false} FoldingFindsNothing(arrears: seq<Arrears>, employees: set<Id>, into: nat, id: Id, run: nat)
    ensures FoundFor(Fold(arrears, employees, into), id, run) == FoundFor(arrears, id, run)
  {
    if arrears != [] {
      var rest := arrears[..|arrears| - 1];
      FoldingFindsNothing(rest, employees, into, id, run);
      assert Fold(arrears, employees, into)[..|arrears| - 1] == Fold(rest, employees, into);
    }
  }

  /** A revision finds at most one row for each run. */
  lemma {:induction false} RevisionFinds(office: Office, n: nat, who: Id, before: Structure, after: Structure,
      effective: Period, terms: Terms, id: Id, run: nat)
    requires n <= |office.runs| && Paid(office, id, run)
    ensures FoundFor(ArrearsOf(office.runs, n, who, before, after, effective, terms), id, run) ==
      if who == id && run < n && Ordinal(office.runs[run].period) >= Ordinal(effective)
      then NetFor(office, id, run, after, terms) - NetFor(office, id, run, before, terms) else 0.0
  {
    hide RowFor;
    hide EmployeesOf;
    if n > 0 {
      RevisionFinds(office, n - 1, who, before, after, effective, terms, id, run);
      if Affected(office.runs[n - 1], who, effective) {
        var rows := ArrearsOf(office.runs, n - 1, who, before, after, effective, terms);
        OneMoreFound(rows, RowFor(office.runs[n - 1], n - 1, who, before, after, terms), id, run);
        RowIsDifference(office.runs[n - 1], n - 1, who, before, after, terms);
      }
    }
  }

  lemma OneMoreFound(rows: seq<Arrears>, row: Arrears, id: Id, run: nat)
    ensures FoundFor(rows + [row], id, run) == FoundFor(rows, id, run) +
      if row.employeeId == id && row.originalRun == run then row.amount else 0.0
  {
    assert (rows + [row])[..|rows|] == rows;
  }

  lemma RowIsDifference(r: Run, place: nat, id: Id, before: Structure, after: Structure, terms: Terms)
    requires id in EmployeesOf(r.items)
    ensures var row, days := RowFor(r, place, id, before, after, terms), r.items[ItemIndex(r.items, id)].days;
      && row.employeeId == id && row.originalRun == place
      && row.amount == NetUnder(after, days, terms, r.period.month) - NetUnder(before, days, terms, r.period.month)
  {
    hide NetUnder;
  }

  lemma StepFinds(office: Office, event: Event, id: Id, run: nat, terms: Terms)
    requires Paid(office, id, run) && OnTerms([event], id, terms)
    ensures FoundFor(Step(office, event).arrears, id, run) == FoundFor(office.arrears, id, run) +
      if event.Revise? && event.id == id && Ordinal(office.runs[run].period) >= Ordinal(event.effective)
      then NetFor(office, id, run, event.components, terms) - NetFor(office, id, run, office.structures[id], terms)
        else 0.0
  {
    hide NetUnder;
    hide DraftItems;
    hide Recalculated;
    hide ItemIndex;
    hide FoundFor;
    hide ArrearsOf;
    if event.CreateDraft? && DraftError(office, event.request).None? {
      var items := DraftItems(office.structures, office.arrears, event.staff, event.settings,
        event.request.period.month);
      FoldingFindsNothing(office.arrears, EmployeesOf(items), |office.runs|, id, run);
    } else if event.Revise? && event.id in office.structures {
      assert [event][0] == event;
      FoundForBoth(office.arrears,
        ArrearsOf(office.runs, |office.runs|, event.id, office.structures[event.id], event.components,
        event.effective, event.terms), id, run);
      RevisionFinds(office, |office.runs|, event.id, office.structures[event.id], event.components, event.effective,
        event.terms, id, run);
    }
  }

  ghost function FinalStructure(office: Office, events: seq<Event>, id: Id): Structure
    requires id in office.structures
    decreases |events|
  {
    if events == [] then office.structures[id]
    else
      StructuresStay(office, events[0], id);
      FinalStructure(Step(office, events[0]), events[1..], id)
  }

  /**
   * Whatever else happens in between, the arrears found for a paid period are the net pay under the last structure
   * less that under the first, but for the changes of revisions that are effective later than the period.
   */
  lemma {:induction false} ArrearsTelescope(office: Office, events: seq<Event>, id: Id, run: nat, terms: Terms)
    requires Paid(office, id, run) && OnTerms(events, id, terms)
    ensures FoundFor(Steps(office, events).arrears, id, run) - FoundFor(office.arrears, id, run) ==
      NetFor(office, id, run, FinalStructure(office, events, id), terms) -
        NetFor(office, id, run, office.structures[id], terms)
      - LeftOut(office, events, id, run, terms)
    decreases |events|
  {
    if events != [] {
      var event := events[0];
      assert [event][0] == event;
      StepFinds(office, event, id, run, terms);
      StillPaid(office, event, id, run);
      StructuresStay(office, event, id);
      hide Step;
      hide NetUnder;
      hide FoundFor;
      hide Paid;
      SameNet(office, Step(office, event), id, run, terms);
      ArrearsTelescope(Step(office, event), events[1..], id, run, terms);
    }
  }

  lemma SameNet(a: Office, b: Office, id: Id, run: nat, terms: Terms)
    requires Paid(a, id, run) && Paid(b, id, run) && a.runs[run].items == b.runs[run].items
    requires a.runs[run].period == b.runs[run].period
    ensures forall components :: NetFor(a, id, run, components, terms) == NetFor(b, id, run, components, terms)
  {
    hide NetUnder;
  }

  ghost predicate AllEffective(events: seq<Event>, id: Id, period: Period) {
    forall i :: 0 <= i < |events| && events[i].Revise? && events[i].id == id ==>
      Ordinal(events[i].effective) <= Ordinal(period)
  }

  lemma {:induction false} NothingLeftOut(office: Office, events: seq<Event>, id: Id, run: nat, terms: Terms)
    requires Paid(office, id, run) && AllEffective(events, id, office.runs[run].period)
    ensures LeftOut(office, events, id, run, terms) == 0.0
    decreases |events|
  {
    if events != [] {
      StillPaid(office, events[0], id, run);
      hide Step;
      hide NetUnder;
      NothingLeftOut(Step(office, events[0]), events[1..], id, run, terms);
    }
  }

  /** Revisions all effective by the period make up the whole difference between the last structure and the first. */
  lemma EffectiveRevisionsTelescope(office: Office, events: seq<Event>, id: Id, run: nat, terms: Terms)
    requires Paid(office, id, run) && OnTerms(events, id, terms) && AllEffective(events, id, office.runs[run].period)
    ensures FoundFor(Steps(office, events).arrears, id, run) - FoundFor(office.arrears, id, run) ==
      NetFor(office, id, run, FinalStructure(office, events, id), terms) -
        NetFor(office, id, run, office.structures[id], terms)
  {
    ArrearsTelescope(office, events, id, run, terms);
    NothingLeftOut(office, events, id, run, terms);
  }

  /**
   * A revision for a later period followed by one that reaches back is settled against the structure of the former,
   * which the period was never paid under: right exactly when that makes no difference to its net pay.
   */
  lemma LaterThenEarlier(office: Office, id: Id, run: nat, later: Structure, laterFrom: Period, last: Structure,
      lastFrom: Period, terms: Terms)
    requires Paid(office, id, run)
    requires Ordinal(lastFrom) <= Ordinal(office.runs[run].period) < Ordinal(laterFrom)
    ensures var events := [Revise(id, later, laterFrom, terms), Revise(id, last, lastFrom, terms)];
      var found := FoundFor(Steps(office, events).arrears, id, run) - FoundFor(office.arrears, id, run);
      && found == NetFor(office, id, run, last, terms) - NetFor(office, id, run, later, terms)
      && (found == NetFor(office, id, run, last, terms) - NetFor(office, id, run, office.structures[id], terms) <==>
          NetFor(office, id, run, later, terms) == NetFor(office, id, run, office.structures[id], terms))
  {
    var first, second := Revise(id, later, laterFrom, terms), Revise(id, last, lastFrom, terms);
    var events := [first, second];
    var next := Step(office, first);
    StillPaid(office, first, id, run);
    StructuresStay(office, first, id);
    StepFinds(office, first, id, run, terms);
    StepFinds(next, second, id, run, terms);
    SameNet(office, next, id, run, terms);
    hide Step;
    hide NetFor;
    hide FoundFor;
    TwoSteps(office, first, second);
  }

  lemma TwoSteps(office: Office, first: Event, second: Event)
    ensures Steps(office, [first, second]) == Step(Step(office, first), second)
  {
    hide Step;
    assert [first, second][1..] == [second] && [second][1..] == [];
    assert Steps(Step(office, first), [second]) == Steps(Step(Step(office, first), second), []);
  }
}
