/**
 * Resolving the reporting managers of an employee import: a row fails when its manager is unknown,
 * is on a failing row, or would close a reporting cycle, until no more rows fail.
 */
module EmployeeImport {
  import opened ManagerChains
  import opened Wrappers

  /** An empty `managerId` is a missing one. */
  datatype Employee = Employee(id: Id, code: Id, managerId: Id)

  datatype Problem = Unreadable(reason: string)
                   | DuplicateCode(code: Id)
                   | ManagerRowFails(managerCode: Id, row: nat)
                   | UnknownManager(managerCode: Id)
                   | ReportingCycle(managerCode: Id)

  /** A parsed row of the sheet; an empty `code` or `managerCode` is a missing one. */
  datatype Row = Row(number: nat, code: Id, managerCode: Id, errors: seq<Problem>)

  predicate Passes(row: Row) {
    row.errors == []
  }

  /** A passing row that names a manager. */
  predicate Links(row: Row) {
    Passes(row) && row.managerCode != ""
  }

  function Fail(row: Row, problem: Problem): Row {
    row.(errors := row.errors + [problem])
  }

  // ---- Duplicate codes ----

  predicate Repeated(rows: seq<Row>, i: nat)
    requires i < |rows|
  {
    rows[i].code != "" && exists j :: 0 <= j < |rows| && j != i && rows[j].code == rows[i].code
  }

  /** What reading the sheet establishes: a row without a code has failed. */
  ghost predicate CodesRead(rows: seq<Row>) {
    forall i :: 0 <= i < |rows| && Passes(rows[i]) ==> rows[i].code != ""
  }

  /** Passing rows have codes of their own. */
  ghost predicate DistinctCodes(rows: seq<Row>) {
    && CodesRead(rows)
    && forall i, j :: 0 <= i < j < |rows| && Passes(rows[i]) && Passes(rows[j]) ==> rows[i].code != rows[j].code
  }

  /** Which of the first `n` rows have this code, in order. */
  function RowsWith(rows: seq<Row>, code: Id, n: nat): (holders: seq<nat>)
    requires n <= |rows|
    ensures forall a :: 0 <= a < |holders| ==> holders[a] < n && rows[holders[a]].code == code
    ensures forall a, b :: 0 <= a < b < |holders| ==> holders[a] < holders[b]
    ensures forall k :: 0 <= k < n && rows[k].code == code ==> k in holders
  {
    if n == 0 then []
    else
      var before := RowsWith(rows, code, n - 1);
      if rows[n - 1].code == code then before + [n - 1] else before
  }

  lemma RepeatedIsSeveral(rows: seq<Row>, i: nat)
    requires i < |rows| && rows[i].code != ""
    ensures i in RowsWith(rows, rows[i].code, |rows|)
    ensures Repeated(rows, i) <==> |RowsWith(rows, rows[i].code, |rows|)| >= 2
  {
    var holders := RowsWith(rows, rows[i].code, |rows|);
    if |holders| >= 2 {
      var other := if holders[0] == i then holders[1] else holders[0];
      assert rows[other].code == rows[i].code;
    }
  }

  function Flagged(rows: seq<Row>): seq<Row> {
    seq(|rows|, i requires 0 <= i < |rows| =>
      if Repeated(rows, i) then Fail(rows[i], DuplicateCode(rows[i].code)) else rows[i])
  }

  lemma FlaggedIsDistinct(rows: seq<Row>)
    requires CodesRead(rows)
    ensures DistinctCodes(Flagged(rows))
  {
    var flagged := Flagged(rows);
    forall i, j | 0 <= i < j < |flagged| && Passes(flagged[i]) && Passes(flagged[j])
      ensures flagged[i].code != flagged[j].code
    {
      assert flagged[i] == rows[i] && flagged[j] == rows[j] && !Repeated(rows, i);
    }
  }

  /** Every code of the first `n` rows with the rows that have it. */
  ghost predicate Grouped(rows: seq<Row>, n: nat, byCode: map<Id, seq<nat>>)
    requires n <= |rows|
  {
    forall code ::
      (code in byCode <==> code != "" && RowsWith(rows, code, n) != []) &&
        (code in byCode ==> byCode[code] == RowsWith(rows, code, n))
  }

  lemma GroupOne(rows: seq<Row>, n: nat, byCode: map<Id, seq<nat>>)
    requires n < |rows| && Grouped(rows, n, byCode)
    ensures var code := rows[n].code;
      Grouped(rows, n + 1,
        if code == "" then byCode else byCode[code := (if code in byCode then byCode[code] else []) + [n]])
  {
  }

  method GroupByCode(rows: seq<Row>) returns (byCode: map<Id, seq<nat>>)
    ensures Grouped(rows, |rows|, byCode)
  {
    byCode := map[];
    for i := 0 to |rows|
      invariant Grouped(rows, i, byCode)
    {
      hide *;
      GroupOne(rows, i, byCode);
      var code := rows[i].code;
      if code != "" {
        byCode := byCode[code := (if code in byCode then byCode[code] else []) + [i]];
      }
    }
  }

  /** Every row whose code is on another row as well gets an error, and no other row does. */
  method FlagDuplicates(rows: seq<Row>) returns (flagged: seq<Row>)
    requires CodesRead(rows)
    ensures flagged == Flagged(rows)
    ensures DistinctCodes(flagged)
  {
    var byCode := GroupByCode(rows);
    flagged := [];
    for i := 0 to |rows|
      invariant flagged == Flagged(rows)[..i]
    {
      hide RowsWith;
      var row := rows[i];
      if row.code != "" {
        RepeatedIsSeveral(rows, i);
        if row.code in byCode && |byCode[row.code]| >= 2 {
          row := Fail(row, DuplicateCode(row.code));
        }
      }
      flagged := flagged + [row];
    }
    FlaggedIsDistinct(rows);
  }

  // ---- What the resolution computes ----

  /** The rows so far and who reports to whom, by employee code. */
  datatype Plan = Plan(rows: seq<Row>, managerOf: map<Id, Id>)

  function CodeById(existing: seq<Employee>, id: Id): Id {
    if existing == [] then ""
    else if existing[|existing| - 1].id == id then existing[|existing| - 1].code
    else CodeById(existing[..|existing| - 1], id)
  }

  function StoredManager(existing: seq<Employee>, e: Employee): Id {
    if e.managerId == "" then "" else CodeById(existing, e.managerId)
  }

  /** Who reports to whom among the first `n` employees in the database. */
  function StoredUpTo(existing: seq<Employee>, n: nat): map<Id, Id>
    requires n <= |existing|
  {
    if n == 0 then map[]
    else StoredUpTo(existing, n - 1)[existing[n - 1].code := StoredManager(existing, existing[n - 1])]
  }

  function Stored(existing: seq<Employee>): map<Id, Id> {
    StoredUpTo(existing, |existing|)
  }

  predicate Exists(existing: seq<Employee>, code: Id) {
    exists i :: 0 <= i < |existing| && existing[i].code == code
  }

  /** The links of the passing rows put on top of `managerOf`. */
  function Linked(managerOf: map<Id, Id>, rows: seq<Row>): map<Id, Id> {
    if rows == [] then managerOf
    else
      var before := Linked(managerOf, rows[..|rows| - 1]);
      var row := rows[|rows| - 1];
      if row.code != "" && Links(row) then before[row.code := row.managerCode] else before
  }

  /** The last row with this code. */
  function LastRow(rows: seq<Row>, code: Id): (i: int)
    requires code != ""
    ensures -1 <= i < |rows|
    ensures i >= 0 ==> rows[i].code == code
    ensures forall k :: i < k < |rows| ==> rows[k].code != code
  {
    if rows == [] then -1
    else if rows[|rows| - 1].code == code then |rows| - 1
    else LastRow(rows[..|rows| - 1], code)
  }

  /** What is wrong with row `i`'s manager, if anything. */
  ghost function ProblemOf(existing: seq<Employee>, plan: Plan, i: nat): Option<Problem>
    requires i < |plan.rows|
  {
    var row := plan.rows[i];
    if !Links(row) then None
    else
      var manager := LastRow(plan.rows, row.managerCode);
      if manager >= 0 && !Passes(plan.rows[manager])
        then Some(ManagerRowFails(row.managerCode, plan.rows[manager].number))
      else if manager < 0 && !Exists(existing, row.managerCode) then Some(UnknownManager(row.managerCode))
      else if !NeverRevisits(plan.managerOf, row.code) then Some(ReportingCycle(row.managerCode))
      else None
  }

  /** Failing row `i` also drops its link. */
  function FailRow(plan: Plan, i: nat, problem: Problem): Plan
    requires i < |plan.rows|
  {
    Plan(plan.rows[i := Fail(plan.rows[i], problem)], plan.managerOf - {plan.rows[i].code})
  }

  ghost function StepOn(existing: seq<Employee>, plan: Plan, i: nat): Plan
    requires i < |plan.rows|
  {
    var problem := ProblemOf(existing, plan, i);
    if problem.None? then plan else FailRow(plan, i, problem.value)
  }

  /** One pass over the rows from row `i` on. */
  ghost function Pass(existing: seq<Employee>, plan: Plan, i: nat): (after: Plan)
    ensures |after.rows| == |plan.rows|
    decreases |plan.rows| - i
  {
    if i >= |plan.rows| then plan else Pass(existing, StepOn(existing, plan, i), i + 1)
  }

  ghost function PassingCount(rows: seq<Row>): nat {
    if rows == [] then 0 else PassingCount(rows[..|rows| - 1]) + if Passes(rows[|rows| - 1]) then 1 else 0
  }

  lemma {:induction false} OneLessPasses(rows: seq<Row>, i: nat, problem: Problem)
    requires i < |rows| && Passes(rows[i])
    ensures PassingCount(rows[i := Fail(rows[i], problem)]) == PassingCount(rows) - 1
  {
    var after := rows[i := Fail(rows[i], problem)];
    var last := |rows| - 1;
    if i == last {
      assert after[..last] == rows[..last];
    } else {
      assert after[..last] == rows[..last][i := Fail(rows[i], problem)];
      OneLessPasses(rows[..last], i, problem);
    }
  }

  lemma StepProgress(existing: seq<Employee>, plan: Plan, i: nat)
    requires i < |plan.rows|
    ensures var after := StepOn(existing, plan, i);
      after == plan || PassingCount(after.rows) < PassingCount(plan.rows)
  {
    var problem := ProblemOf(existing, plan, i);
    if problem.Some? {
      OneLessPasses(plan.rows, i, problem.value);
    }
  }

  /** A pass that changes something leaves fewer passing rows; one that does not finds no problem. */
  lemma {:induction false} PassProgress(existing: seq<Employee>, plan: Plan, i: nat)
    ensures var after := Pass(existing, plan, i);
      after == plan || PassingCount(after.rows) < PassingCount(plan.rows)
    ensures Pass(existing, plan, i) == plan ==>
      forall k: nat :: i <= k < |plan.rows| ==> ProblemOf(existing, plan, k).None?
    decreases |plan.rows| - i
  {
    if i < |plan.rows| {
      StepProgress(existing, plan, i);
      PassProgress(existing, StepOn(existing, plan, i), i + 1);
      var problem := ProblemOf(existing, plan, i);
      if problem.Some? {
        OneLessPasses(plan.rows, i, problem.value);
      }
    }
  }

  /** Passes repeated until one changes nothing. */
  ghost function Settle(existing: seq<Employee>, plan: Plan): Plan
    decreases PassingCount(plan.rows)
  {
    PassProgress(existing, plan, 0);
    var after := Pass(existing, plan, 0);
    if after == plan then plan else Settle(existing, after)
  }

  /** The plan the passes begin with. */
  function Begin(existing: seq<Employee>, rows: seq<Row>): Plan {
    Plan(rows, Linked(Stored(existing), rows))
  }

  // ---- What every pass keeps ----

  /** What a row is about never changes. */
  ghost predicate SameRow(before: Row, after: Row) {
    after.number == before.number && after.code == before.code && after.managerCode == before.managerCode
  }

  /** A passing row's link is in the map, and every other link is a stored one. */
  ghost predicate LinksExplained(existing: seq<Employee>, plan: Plan) {
    && (forall i :: 0 <= i < |plan.rows| && Links(plan.rows[i]) ==>
          ManagerOf(plan.managerOf, plan.rows[i].code) == plan.rows[i].managerCode)
    && (forall code: Id :: ManagerOf(plan.managerOf, code) != ManagerOf(Stored(existing), code) ==>
          || ManagerOf(plan.managerOf, code) == ""
          || exists i :: 0 <= i < |plan.rows| && plan.rows[i].code == code && Links(plan.rows[i]))
  }

  /** The resolution failed row `i`. */
  ghost predicate FailedHere(begin: Plan, plan: Plan, i: int) {
    0 <= i < |plan.rows| == |begin.rows| && plan.rows[i].errors != begin.rows[i].errors
  }

  /** Rows fail, never recover, and only with a reason that holds at the end too. */
  ghost predicate FailedFrom(begin: Plan, plan: Plan) {
    && |plan.rows| == |begin.rows|
    && (forall i :: 0 <= i < |plan.rows| ==> SameRow(begin.rows[i], plan.rows[i]))
    && (forall code: Id ::
         code in plan.managerOf ==> code in begin.managerOf && plan.managerOf[code] == begin.managerOf[code])
    && (forall code: Id :: code in begin.managerOf && code !in plan.managerOf ==>
          exists i :: FailedHere(begin, plan, i) && plan.rows[i].code == code)
    && (forall i :: 0 <= i < |plan.rows| && plan.rows[i].errors != begin.rows[i].errors ==>
          Links(begin.rows[i]) && plan.rows[i].code !in plan.managerOf && FailedWith(begin, plan, i))
  }

  /** Row `i` failed with exactly one error, and that error is true. */
  ghost predicate FailedWith(begin: Plan, plan: Plan, i: nat)
    requires i < |plan.rows| == |begin.rows|
  {
    && |plan.rows[i].errors| == 1
    && match plan.rows[i].errors[0] {
      case ManagerRowFails(managerCode, number) =>
        managerCode == begin.rows[i].managerCode &&
        exists k :: 0 <= k < |plan.rows| && plan.rows[k].code == managerCode && plan.rows[k].number == number &&
          !Passes(plan.rows[k])
      case UnknownManager(managerCode) =>
        managerCode == begin.rows[i].managerCode &&
          forall k :: 0 <= k < |plan.rows| ==> plan.rows[k].code != managerCode
      case ReportingCycle(managerCode) =>
        managerCode == begin.rows[i].managerCode && !NeverRevisits(begin.managerOf, begin.rows[i].code)
      case _ => false
    }
  }

  /** A chain in a map that lost some links is a shorter copy of the chain in the whole map. */
  lemma {:induction false} FewerLinks(all: map<Id, Id>, some: map<Id, Id>, id: Id, steps: nat)
    requires forall code :: code in some ==> code in all && all[code] == some[code]
    ensures Follow(some, id, steps) in {"", Follow(all, id, steps)}
    decreases steps
  {
    if id != "" && steps > 0 {
      if id in some {
        FewerLinks(all, some, some[id], steps - 1);
      }
    }
  }

  lemma RevisitsInWhole(all: map<Id, Id>, some: map<Id, Id>, id: Id)
    requires forall code :: code in some ==> code in all && all[code] == some[code]
    requires !NeverRevisits(some, id)
    ensures !NeverRevisits(all, id)
  {
    var first: nat, period: nat :| MeetsAgain(some, id, first, period);
    FewerLinks(all, some, id, first);
    FewerLinks(all, some, id, first + period);
    assert MeetsAgain(all, id, first, period);
  }

  lemma StepKeepsLinks(existing: seq<Employee>, plan: Plan, i: nat)
    requires i < |plan.rows| && DistinctCodes(plan.rows) && LinksExplained(existing, plan)
    ensures var after := StepOn(existing, plan, i);
      DistinctCodes(after.rows) && LinksExplained(existing, after)
  {
    hide Stored;
    hide NeverRevisits;
    var problem := ProblemOf(existing, plan, i);
    if problem.Some? {
      var after := FailRow(plan, i, problem.value);
      forall code: Id | ManagerOf(after.managerOf, code) != ManagerOf(Stored(existing), code) &&
        ManagerOf(after.managerOf, code) != ""
        ensures exists k :: 0 <= k < |after.rows| && after.rows[k].code == code && Links(after.rows[k])
      {
        assert ManagerOf(plan.managerOf, code) == ManagerOf(after.managerOf, code) && code != plan.rows[i].code;
        var k :| 0 <= k < |plan.rows| && plan.rows[k].code == code && Links(plan.rows[k]);
        assert after.rows[k] == plan.rows[k];
      }
    }
  }

  lemma StepKeepsRemovals(begin: Plan, plan: Plan, i: nat, problem: Problem)
    requires i < |plan.rows| && FailedFrom(begin, plan) && Links(plan.rows[i])
    ensures var after := FailRow(plan, i, problem);
      forall code: Id :: code in begin.managerOf && code !in after.managerOf ==>
        exists k :: FailedHere(begin, after, k) && after.rows[k].code == code
  {
    hide FailedWith;
    var after := FailRow(plan, i, problem);
    forall code: Id | code in begin.managerOf && code !in after.managerOf
      ensures exists k :: FailedHere(begin, after, k) && after.rows[k].code == code
    {
      if code == plan.rows[i].code {
        assert FailedHere(begin, after, i);
      } else {
        var k :| FailedHere(begin, plan, k) && plan.rows[k].code == code;
        assert FailedHere(begin, after, k);
      }
    }
  }

  lemma ReasonStays(begin: Plan, plan: Plan, i: nat, problem: Problem, k: nat)
    requires i < |plan.rows| == |begin.rows| && k < |plan.rows| && k != i && FailedWith(begin, plan, k)
    requires Passes(plan.rows[i])
    ensures FailedWith(begin, FailRow(plan, i, problem), k)
  {
    hide NeverRevisits;
    var after := FailRow(plan, i, problem);
    if plan.rows[k].errors[0].ManagerRowFails? {
      var m :| 0 <= m < |plan.rows| && plan.rows[m].code == plan.rows[k].errors[0].managerCode &&
        plan.rows[m].number == plan.rows[k].errors[0].row && !Passes(plan.rows[m]);
      assert after.rows[m] == plan.rows[m];
    }
  }

  lemma NewReason(existing: seq<Employee>, begin: Plan, plan: Plan, i: nat)
    requires i < |plan.rows| == |begin.rows| && plan.rows[i] == begin.rows[i] && ProblemOf(existing, plan, i).Some?
    requires forall code: Id ::
      code in plan.managerOf ==> code in begin.managerOf && plan.managerOf[code] == begin.managerOf[code]
    ensures FailedWith(begin, FailRow(plan, i, ProblemOf(existing, plan, i).value), i)
  {
    hide NeverRevisits;
    var problem := ProblemOf(existing, plan, i).value;
    var after := FailRow(plan, i, problem);
    if problem.ReportingCycle? {
      RevisitsInWhole(begin.managerOf, plan.managerOf, plan.rows[i].code);
    } else {
      var manager := LastRow(plan.rows, plan.rows[i].managerCode);
      if manager >= 0 {
        assert manager != i && after.rows[manager] == plan.rows[manager];
      }
    }
  }

  lemma StepKeepsReasons(existing: seq<Employee>, begin: Plan, plan: Plan, i: nat)
    requires i < |plan.rows| && FailedFrom(begin, plan)
    ensures FailedFrom(begin, StepOn(existing, plan, i))
  {
    hide NeverRevisits;
    var problem := ProblemOf(existing, plan, i);
    if problem.Some? {
      var after := FailRow(plan, i, problem.value);
      assert plan.rows[i].errors == begin.rows[i].errors == [] && SameRow(begin.rows[i], plan.rows[i]);
      StepKeepsRemovals(begin, plan, i, problem.value);
      NewReason(existing, begin, plan, i);
      hide FailedWith;
      forall k | 0 <= k < |after.rows| && after.rows[k].errors != begin.rows[k].errors
        ensures Links(begin.rows[k]) && after.rows[k].code !in after.managerOf && FailedWith(begin, after, k)
      {
        if k != i {
          ReasonStays(begin, plan, i, problem.value, k);
        }
      }
    }
  }

  ghost predicate Kept(existing: seq<Employee>, begin: Plan, plan: Plan) {
    DistinctCodes(plan.rows) && LinksExplained(existing, plan) && FailedFrom(begin, plan)
  }

  lemma {:induction false} PassKeeps(existing: seq<Employee>, begin: Plan, plan: Plan, i: nat)
    requires Kept(existing, begin, plan)
    ensures Kept(existing, begin, Pass(existing, plan, i))
    decreases |plan.rows| - i
  {
    hide DistinctCodes;
    hide LinksExplained;
    hide FailedFrom;
    if i < |plan.rows| {
      StepKeepsLinks(existing, plan, i);
      StepKeepsReasons(existing, begin, plan, i);
      PassKeeps(existing, begin, StepOn(existing, plan, i), i + 1);
    }
  }

  lemma {:induction false} SettleKeeps(existing: seq<Employee>, begin: Plan, plan: Plan)
    requires Kept(existing, begin, plan)
    ensures Kept(existing, begin, Settle(existing, plan))
    ensures forall i: nat :: i < |Settle(existing, plan).rows| ==> ProblemOf(existing, Settle(existing, plan), i).None?
    decreases PassingCount(plan.rows)
  {
    hide Kept;
    PassKeeps(existing, begin, plan, 0);
    PassProgress(existing, plan, 0);
    if Pass(existing, plan, 0) != plan {
      SettleKeeps(existing, begin, Pass(existing, plan, 0));
    }
  }

  lemma {:induction false} LinkedElsewhere(managerOf: map<Id, Id>, rows: seq<Row>, code: Id)
    requires ManagerOf(Linked(managerOf, rows), code) != ManagerOf(managerOf, code)
    ensures exists i :: 0 <= i < |rows| && rows[i].code == code && Links(rows[i])
  {
    var before, row := rows[..|rows| - 1], rows[|rows| - 1];
    if row.code == code && Links(row) {
      assert rows[|rows| - 1] == row;
    } else {
      LinkedElsewhere(managerOf, before, code);
      var i :| 0 <= i < |before| && before[i].code == code && Links(before[i]);
      assert rows[i] == before[i];
    }
  }

  lemma {:induction false} LinkedHere(managerOf: map<Id, Id>, rows: seq<Row>, i: nat)
    requires DistinctCodes(rows) && i < |rows| && Links(rows[i])
    ensures ManagerOf(Linked(managerOf, rows), rows[i].code) == rows[i].managerCode
  {
    var before := rows[..|rows| - 1];
    if i < |before| {
      LinkedHere(managerOf, before, i);
    }
  }

  lemma LinkedExplained(existing: seq<Employee>, rows: seq<Row>)
    requires DistinctCodes(rows)
    ensures LinksExplained(existing, Begin(existing, rows))
  {
    hide Stored;
    hide Linked;
    var plan := Begin(existing, rows);
    forall i | 0 <= i < |rows| && Links(rows[i])
      ensures ManagerOf(plan.managerOf, rows[i].code) == rows[i].managerCode
    {
      LinkedHere(Stored(existing), rows, i);
    }
    forall code: Id | ManagerOf(plan.managerOf, code) != ManagerOf(Stored(existing), code)
      ensures exists i :: 0 <= i < |rows| && rows[i].code == code && Links(rows[i])
    {
      LinkedElsewhere(Stored(existing), rows, code);
    }
  }

  // ---- What the resolution guarantees ----

  ghost function Resolved(existing: seq<Employee>, rows: seq<Row>): Plan {
    Settle(existing, Begin(existing, rows))
  }

  /** The manager is an existing employee or on a passing row. */
  ghost predicate ManagerStands(existing: seq<Employee>, rows: seq<Row>, managerCode: Id) {
    if forall k :: 0 <= k < |rows| ==> rows[k].code != managerCode then Exists(existing, managerCode)
    else exists k :: 0 <= k < |rows| && rows[k].code == managerCode && Passes(rows[k])
  }

  lemma ResolvedIsKept(existing: seq<Employee>, rows: seq<Row>)
    requires DistinctCodes(rows)
    ensures Kept(existing, Begin(existing, rows), Resolved(existing, rows))
    ensures var plan := Resolved(existing, rows);
      forall i: nat :: i < |plan.rows| ==> ProblemOf(existing, plan, i).None?
  {
    LinkedExplained(existing, rows);
    SettleKeeps(existing, Begin(existing, rows), Begin(existing, rows));
  }

  /** Every row left passing has a manager who stands, and a chain of managers that meets nobody twice. */
  lemma SurvivorsAreSound(existing: seq<Employee>, rows: seq<Row>, i: nat)
    requires DistinctCodes(rows) && i < |Resolved(existing, rows).rows| && Links(Resolved(existing, rows).rows[i])
    ensures var plan := Resolved(existing, rows);
      && ManagerStands(existing, plan.rows, plan.rows[i].managerCode)
      && ManagerOf(plan.managerOf, plan.rows[i].code) == plan.rows[i].managerCode
      && NeverRevisits(plan.managerOf, plan.rows[i].code)
  {
    ResolvedIsKept(existing, rows);
    var plan := Resolved(existing, rows);
    hide Settle;
    assert ProblemOf(existing, plan, i).None?;
    var manager := LastRow(plan.rows, plan.rows[i].managerCode);
    assert manager >= 0 ==> plan.rows[manager].code == plan.rows[i].managerCode;
  }

  /** No row fails without a true reason. */
  lemma FailuresAreJustified(existing: seq<Employee>, rows: seq<Row>)
    requires DistinctCodes(rows)
    ensures FailedFrom(Begin(existing, rows), Resolved(existing, rows))
  {
    ResolvedIsKept(existing, rows);
  }

  /** Nobody ends up above themselves, if nobody stored in the database is. */
  lemma ResolvedIsAcyclic(existing: seq<Employee>, rows: seq<Row>)
    requires DistinctCodes(rows) && Acyclic(Stored(existing))
    ensures Acyclic(Resolved(existing, rows).managerOf)
  {
    var plan := Resolved(existing, rows);
    ResolvedIsKept(existing, rows);
    forall id: Id, steps: nat | id != "" && steps > 0
      ensures Follow(plan.managerOf, id, steps) != id
    {
      if Follow(plan.managerOf, id, steps) == id {
        var at := NewLoopUsesNewEdge(Stored(existing), plan.managerOf, id, steps);
        var x := Follow(plan.managerOf, id, at);
        LoopFromAnywhere(plan.managerOf, id, steps, at);
        LoopNeverEnds(plan.managerOf, x, steps, 1);
        assert Follow(plan.managerOf, x, 1) == ManagerOf(plan.managerOf, x);
        var i :| 0 <= i < |plan.rows| && plan.rows[i].code == x && Links(plan.rows[i]);
        SurvivorsAreSound(existing, rows, i);
        assert MeetsAgain(plan.managerOf, x, 0, steps);
      }
    }
  }

  // ---- The database after the import ----

  /** Who reports to whom once every passing row is written: a failing row keeps its stored manager. */
  function Committed(existing: seq<Employee>, rows: seq<Row>): map<Id, Id> {
    Linked(Stored(existing), rows)
  }

  lemma KeptLinkIsOfFailedRow(existing: seq<Employee>, rows: seq<Row>, x: Id)
    requires DistinctCodes(rows)
    requires var plan := Resolved(existing, rows);
      ManagerOf(Committed(existing, plan.rows), x) != "" &&
      ManagerOf(Committed(existing, plan.rows), x) != ManagerOf(plan.managerOf, x)
    ensures exists i :: FailedHere(Begin(existing, rows), Resolved(existing, rows), i) && rows[i].code == x
  {
    var begin, plan := Begin(existing, rows), Resolved(existing, rows);
    ResolvedIsKept(existing, rows);
    LinkedExplained(existing, rows);
    LinkedExplained(existing, plan.rows);
    hide Settle;
    hide Linked;
    hide Stored;
    if ManagerOf(Committed(existing, plan.rows), x) != ManagerOf(Stored(existing), x) {
      LinkedElsewhere(Stored(existing), plan.rows, x);
      assert false;
    }
    if ManagerOf(begin.managerOf, x) != ManagerOf(Stored(existing), x) {
      LinkedElsewhere(Stored(existing), rows, x);
    }
    assert x in begin.managerOf && x !in plan.managerOf;
    var i :| FailedHere(begin, plan, i) && plan.rows[i].code == x;
    assert SameRow(begin.rows[i], plan.rows[i]);
  }

  /**
   * The database stays free of reporting cycles exactly when nobody whose row failed in the resolution, and who
   * therefore keeps the stored manager the check no longer saw, meets somebody twice going up from there.
   */
  lemma CommitStaysAcyclic(existing: seq<Employee>, rows: seq<Row>)
    requires DistinctCodes(rows) && Acyclic(Stored(existing))
    ensures var plan := Resolved(existing, rows);
      Acyclic(Committed(existing, plan.rows)) <==>
      forall i: nat ::
        FailedHere(Begin(existing, rows), plan, i) ==> NeverRevisits(Committed(existing, plan.rows), rows[i].code)
  {
    var begin, plan := Begin(existing, rows), Resolved(existing, rows);
    var committed := Committed(existing, plan.rows);
    AcyclicIsNoRevisit(committed);
    ResolvedIsKept(existing, rows);
    hide Settle;
    hide Linked;
    if forall i: nat :: FailedHere(begin, plan, i) ==> NeverRevisits(committed, rows[i].code) {
      ResolvedIsAcyclic(existing, rows);
      forall id: Id, steps: nat | id != "" && steps > 0
        ensures Follow(committed, id, steps) != id
      {
        if Follow(committed, id, steps) == id {
          var at := NewLoopUsesNewEdge(plan.managerOf, committed, id, steps);
          var x := Follow(committed, id, at);
          LoopFromAnywhere(committed, id, steps, at);
          LoopNeverEnds(committed, x, steps, 1);
          assert Follow(committed, x, 1) == ManagerOf(committed, x);
          assert MeetsAgain(committed, x, 0, steps);
          KeptLinkIsOfFailedRow(existing, rows, x);
        }
      }
    }
  }

  /** In particular when no failing row is of an employee who has a manager already. */
  lemma CommitStaysAcyclicForNewcomers(existing: seq<Employee>, rows: seq<Row>)
    requires DistinctCodes(rows) && Acyclic(Stored(existing))
    requires forall i: nat ::
      FailedHere(Begin(existing, rows), Resolved(existing, rows), i) ==> ManagerOf(Stored(existing), rows[i].code) == ""
    ensures Acyclic(Committed(existing, Resolved(existing, rows).rows))
  {
    var begin, plan := Begin(existing, rows), Resolved(existing, rows);
    var committed := Committed(existing, plan.rows);
    ResolvedIsKept(existing, rows);
    LinkedExplained(existing, plan.rows);
    hide Settle;
    hide Linked;
    hide Stored;
    forall i: nat | FailedHere(begin, plan, i)
      ensures NeverRevisits(committed, rows[i].code)
    {
      var code := rows[i].code;
      assert SameRow(begin.rows[i], plan.rows[i]);
      assert ManagerOf(committed, code) == "";
      assert Follow(committed, code, 1) == Follow(committed, ManagerOf(committed, code), 0);
      EndsSoNeverRevisits(committed, code, 1);
    }
    CommitStaysAcyclic(existing, rows);
  }

  // ---- A database with a cycle after an accepted import ----

  /** "a" reports to "y", "b" to "a", "x" to "y". */
  function Staff(): seq<Employee> {
    [Employee("1", "y", ""), Employee("2", "a", "1"), Employee("3", "b", "2"), Employee("4", "x", "1")]
  }

  /** "a" is to report to "x", "y" to "b". */
  function Moves(): seq<Row> {
    [Row(2, "a", "x", []), Row(3, "y", "b", [])]
  }

  function AllLinks(): map<Id, Id> {
    map["y" := "b", "a" := "x", "b" := "a", "x" := "y"]
  }

  lemma StaffLinks()
    ensures Stored(Staff()) == map["y" := "", "a" := "y", "b" := "a", "x" := "y"]
    ensures Linked(Stored(Staff()), Moves()) == AllLinks()
    ensures Linked(Stored(Staff()), [Moves()[1], Moves()[0]]) == AllLinks()
  {
    var staff := Staff();
    assert CodeById(staff[..1], "1") == "y";
    assert CodeById(staff[..2], "1") == "y" by { assert staff[..2][..1] == staff[..1]; }
    assert CodeById(staff[..2], "2") == "a";
    assert CodeById(staff[..3], "1") == "y" && CodeById(staff[..3], "2") == "a"
      by { assert staff[..3][..2] == staff[..2]; }
    assert CodeById(staff, "1") == "y" && CodeById(staff, "2") == "a";
    assert StoredUpTo(staff, 1) == map["y" := ""];
    assert StoredUpTo(staff, 2) == map["y" := "", "a" := "y"];
    assert StoredUpTo(staff, 3) == map["y" := "", "a" := "y", "b" := "a"];
    assert StoredUpTo(staff, 4) == map["y" := "", "a" := "y", "b" := "a", "x" := "y"];
    LinkedTwice(Stored(staff), Moves()[0], Moves()[1]);
    LinkedTwice(Stored(staff), Moves()[1], Moves()[0]);
  }

  lemma LinkedTwice(managerOf: map<Id, Id>, first: Row, second: Row)
    requires Links(first) && Links(second) && first.code != "" && second.code != ""
    ensures Linked(managerOf, [first, second]) ==
      managerOf[first.code := first.managerCode][second.code := second.managerCode]
  {
    assert [first, second][..1] == [first];
    assert Linked(managerOf, [first]) == managerOf[first.code := first.managerCode];
  }

  lemma FollowFour(managers: map<Id, Id>, id: Id)
    ensures Follow(managers, id, 1) == if id == "" then "" else ManagerOf(managers, id)
    ensures forall k: nat :: 1 <= k < 4 ==>
      Follow(managers, id, k + 1) == if Follow(managers, id, k) == "" then ""
        else ManagerOf(managers, Follow(managers, id, k))
  {
    FollowOnce(managers, id, 0);
    FollowOnce(managers, id, 1);
    FollowOnce(managers, id, 2);
    FollowOnce(managers, id, 3);
  }

  /** Of two rows that close a cycle together, the first one fails and frees the second. */
  lemma FirstOfTwoFails(existing: seq<Employee>, first: Row, second: Row, links: map<Id, Id>)
    requires Links(first) && Links(second) && first.code != second.code
    requires first.managerCode !in {first.code, second.code} && second.managerCode !in {first.code, second.code}
    requires Exists(existing, first.managerCode) && Exists(existing, second.managerCode)
    requires !NeverRevisits(links, first.code) && NeverRevisits(links - {first.code}, second.code)
    ensures Settle(existing, Plan([first, second], links)) ==
      Plan([Fail(first, ReportingCycle(first.managerCode)), second], links - {first.code})
  {
    hide NeverRevisits;
    var begin := Plan([first, second], links);
    var after := Plan([Fail(first, ReportingCycle(first.managerCode)), second], links - {first.code});
    assert begin.rows[..1] == [first] && after.rows[..1] == [after.rows[0]];
    assert LastRow(begin.rows, first.managerCode) == -1 && LastRow(after.rows, second.managerCode) == -1;
    assert StepOn(existing, begin, 0) == after;
    assert ProblemOf(existing, after, 0).None? && ProblemOf(existing, after, 1).None?;
    assert Pass(existing, after, 1) == Pass(existing, after, 2) == after;
    assert Pass(existing, begin, 0) == after == Pass(existing, after, 0);
    assert begin != after;
  }

  /**
   * The first move would close the cycle a-x-y-b-a and fails; without its link the second move is accepted. But "a"
   * still reports to "y" in the database, which now has the cycle a-y-b-a.
   */
  lemma ImportCanStoreCycle()
    ensures Acyclic(Stored(Staff()))
    ensures Resolved(Staff(), Moves()).rows == [Fail(Moves()[0], ReportingCycle("x")), Moves()[1]]
    ensures !Acyclic(Committed(Staff(), Resolved(Staff(), Moves()).rows))
  {
    StaffLinks();
    StaffIsAcyclic();
    MovesClash();
    FirstOfTwoFails(Staff(), Moves()[0], Moves()[1], AllLinks());
    var rows := [Fail(Moves()[0], ReportingCycle("x")), Moves()[1]];
    assert rows[..1] == [rows[0]] && rows[..1][..0] == [];
    var committed := Committed(Staff(), rows);
    assert Linked(Stored(Staff()), rows[..1]) == Stored(Staff());
    assert committed == Stored(Staff())["y" := "b"];
    FollowFour(committed, "a");
    assert Follow(committed, "a", 3) == "a";
  }

  /** In the other order the other row fails. */
  lemma OrderDecides()
    ensures Resolved(Staff(), [Moves()[1], Moves()[0]]).rows == [Fail(Moves()[1], ReportingCycle("b")), Moves()[0]]
  {
    StaffLinks();
    MovesClash();
    FirstOfTwoFails(Staff(), Moves()[1], Moves()[0], AllLinks());
  }

  lemma MovesClash()
    ensures !NeverRevisits(AllLinks(), "a") && NeverRevisits(AllLinks() - {"a"}, "y")
    ensures !NeverRevisits(AllLinks(), "y") && NeverRevisits(AllLinks() - {"y"}, "a")
    ensures Exists(Staff(), "x") && Exists(Staff(), "b")
  {
    assert Staff()[3].code == "x" && Staff()[2].code == "b";
    FollowFour(AllLinks(), "a");
    FollowFour(AllLinks(), "y");
    assert MeetsAgain(AllLinks(), "a", 0, 4) && MeetsAgain(AllLinks(), "y", 0, 4);
    FollowFour(AllLinks() - {"a"}, "y");
    EndsSoNeverRevisits(AllLinks() - {"a"}, "y", 3);
    FollowFour(AllLinks() - {"y"}, "a");
    EndsSoNeverRevisits(AllLinks() - {"y"}, "a", 3);
  }

  lemma StaffIsAcyclic()
    ensures Acyclic(Stored(Staff()))
  {
    StaffLinks();
    var stored := Stored(Staff());
    forall id: Id
      ensures NeverRevisits(stored, id)
    {
      FollowFour(stored, id);
      EndsSoNeverRevisits(stored, id, 4);
    }
    AcyclicIsNoRevisit(stored);
  }

  // ---- The loop ----

  class ManagerResolver {
    const existing: seq<Employee>
    var rows: seq<Row>
    var managerOf: map<Id, Id>

    ghost function Contents(): Plan
      reads this
    {
      Plan(rows, managerOf)
    }

    constructor (existing: seq<Employee>, rows: seq<Row>)
      ensures this.existing == existing && Contents() == Begin(existing, rows)
    {
      this.existing := existing;
      this.rows := rows;
      managerOf := map[];
      new;
      var codeById: map<Id, Id> := map[];
      for i := 0 to |existing|
        invariant managerOf == map[] && this.existing == existing && this.rows == rows
        invariant forall id :: ManagerOf(codeById, id) == CodeById(existing[..i], id)
      {
        assert existing[..i + 1][..i] == existing[..i];
        codeById := codeById[existing[i].id := existing[i].code];
      }
      assert existing[..|existing|] == existing;
      for i := 0 to |existing|
        invariant this.existing == existing && this.rows == rows
        invariant managerOf == StoredUpTo(existing, i)
      {
        var e := existing[i];
        managerOf := managerOf[e.code := if e.managerId != "" then ManagerOf(codeById, e.managerId) else ""];
      }
      for i := 0 to |rows|
        invariant this.existing == existing && this.rows == rows
        invariant managerOf == Linked(Stored(existing), rows[..i])
      {
        assert rows[..i + 1][..i] == rows[..i];
        var row := rows[i];
        if row.code != "" && row.errors == [] && row.managerCode != "" {
          managerOf := managerOf[row.code := row.managerCode];
        }
      }
      assert rows[..|rows|] == rows;
    }

    /** Walks up from `code` until the chain ends or meets somebody again. */
    method ClosesCycle(code: Id) returns (closes: bool)
      requires code != ""
      ensures closes == !NeverRevisits(managerOf, code)
    {
      var seen: set<Id> := {code};
      var cursor := ManagerOf(managerOf, code);
      ghost var steps := 1;
      assert forall i: nat :: i < 1 ==> Follow(managerOf, code, i) == code;
      assert exists i: nat :: i < 1 && Follow(managerOf, code, i) == code
        by { assert Follow(managerOf, code, 0) == code; }
      assert Follow(managerOf, code, 1) == Follow(managerOf, cursor, 0);
      while cursor != ""
        invariant steps > 0 && cursor == Follow(managerOf, code, steps)
        invariant forall x :: x in seen <==> exists i: nat :: i < steps && Follow(managerOf, code, i) == x
        invariant "" !in seen && seen <= managerOf.Values + {code}
        decreases managerOf.Values + {code} - seen
      {
        if cursor in seen {
          ghost var first: nat :| first < steps && Follow(managerOf, code, first) == cursor;
          assert MeetsAgain(managerOf, code, first, steps - first);
          return true;
        }
        FollowOnce(managerOf, code, steps - 1);
        FollowOnce(managerOf, code, steps);
        seen := seen + {cursor};
        cursor := ManagerOf(managerOf, cursor);
        steps := steps + 1;
      }
      EndsSoNeverRevisits(managerOf, code, steps);
      return false;
    }

    method CheckRow(i: nat, rowByCode: map<Id, nat>, codes: set<Id>) returns (failed: bool)
      requires i < |rows| && CodesRead(rows) && IsIndex(rows, rowByCode)
      requires forall code :: code in codes <==> Exists(existing, code)
      modifies this
      ensures Contents() == StepOn(existing, old(Contents()), i)
      ensures failed == ProblemOf(existing, old(Contents()), i).Some?
    {
      var row := rows[i];
      if row.errors != [] || row.managerCode == "" {
        return false;
      }
      var problem := None;
      if row.managerCode in rowByCode && rows[rowByCode[row.managerCode]].errors != [] {
        problem := Some(ManagerRowFails(row.managerCode, rows[rowByCode[row.managerCode]].number));
      } else if row.managerCode !in rowByCode && row.managerCode !in codes {
        problem := Some(UnknownManager(row.managerCode));
      } else {
        var closes := ClosesCycle(row.code);
        if closes {
          problem := Some(ReportingCycle(row.managerCode));
        }
      }
      assert problem == ProblemOf(existing, Contents(), i);
      if problem.Some? {
        rows := rows[i := Fail(row, problem.value)];
        managerOf := managerOf - {row.code};
      }
      return problem.Some?;
    }

    /** Repeats passes over the rows until one fails no row. */
    method Resolve()
      requires CodesRead(rows)
      modifies this
      ensures Contents() == Settle(existing, old(Contents()))
    {
      var rowByCode := IndexByCode(rows);
      var codes := set i | 0 <= i < |existing| :: existing[i].code;
      var changed := true;
      ghost var begin := Contents();
      while changed
        invariant CodesRead(rows) && IsIndex(rows, rowByCode)
        invariant Settle(existing, begin) == if changed then Settle(existing, Contents()) else Contents()
        decreases PassingCount(rows), changed
      {
        hide Settle;
        hide ProblemOf;
        hide IsIndex;
        changed := false;
        ghost var plan := Contents();
        for i := 0 to |rows|
          invariant |rows| == |plan.rows| && CodesRead(rows) && IsIndex(rows, rowByCode)
          invariant Pass(existing, plan, 0) == Pass(existing, Contents(), i)
          invariant if changed then PassingCount(rows) < PassingCount(plan.rows) else Contents() == plan
        {
          StepProgress(existing, Contents(), i);
          StepKeepsIndex(existing, Contents(), i, rowByCode);
          var failed := CheckRow(i, rowByCode, codes);
          changed := changed || failed;
        }
        SettleStep(existing, plan);
      }
    }
  }

  ghost predicate IsIndex(rows: seq<Row>, rowByCode: map<Id, nat>) {
    && (forall code :: code != "" ==> (code in rowByCode <==> LastRow(rows, code) >= 0))
    && (forall code :: code != "" && code in rowByCode ==> rowByCode[code] == LastRow(rows, code))
  }

  /** For each code, the last row that has it. */
  method IndexByCode(rows: seq<Row>) returns (rowByCode: map<Id, nat>)
    ensures IsIndex(rows, rowByCode)
  {
    rowByCode := map[];
    for i := 0 to |rows|
      invariant IsIndex(rows[..i], rowByCode)
    {
      assert rows[..i + 1][..i] == rows[..i];
      if rows[i].code != "" {
        rowByCode := rowByCode[rows[i].code := i];
      }
    }
    assert rows[..|rows|] == rows;
  }

  lemma {:induction false} LastRowOfCodes(a: seq<Row>, b: seq<Row>, code: Id)
    requires code != "" && |a| == |b| && forall i :: 0 <= i < |a| ==> a[i].code == b[i].code
    ensures LastRow(a, code) == LastRow(b, code)
  {
    if a != [] && a[|a| - 1].code != code {
      LastRowOfCodes(a[..|a| - 1], b[..|b| - 1], code);
    }
  }

  /** Failing a row moves no code. */
  lemma StepKeepsIndex(existing: seq<Employee>, plan: Plan, i: nat, rowByCode: map<Id, nat>)
    requires i < |plan.rows| && CodesRead(plan.rows) && IsIndex(plan.rows, rowByCode)
    ensures var after := StepOn(existing, plan, i); CodesRead(after.rows) && IsIndex(after.rows, rowByCode)
  {
    var after := StepOn(existing, plan, i);
    forall code: Id | code != ""
      ensures LastRow(after.rows, code) == LastRow(plan.rows, code)
    {
      LastRowOfCodes(plan.rows, after.rows, code);
    }
  }

  lemma SettleStep(existing: seq<Employee>, plan: Plan)
    ensures Settle(existing, plan) == if Pass(existing, plan, 0) == plan then plan
      else Settle(existing, Pass(existing, plan, 0))
  {
  }
}
