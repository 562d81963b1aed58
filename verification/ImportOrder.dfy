/**
 * What an import can be told beforehand: when the order of its rows is no matter, and when the database stays acyclic.
 */
module ImportOrder {
  import opened EmployeeImport
  import opened ManagerChains

  // ---- What can be said of the rows before any check ----

  ghost predicate OnSomeRow(rows: seq<Row>, code: Id) {
    exists m :: m in rows && m.code == code
  }

  /** A passing row with this code names a manager. */
  ghost predicate LinksOn(rows: seq<Row>, code: Id) {
    exists m :: m in rows && m.code == code && Links(m)
  }

  /** The row fails, or its manager is unknown or on a row that fails, at most `depth` managers up. */
  ghost predicate Doomed(existing: seq<Employee>, rows: seq<Row>, row: Row, depth: nat)
    decreases depth
  {
    || !Passes(row)
    || (depth > 0 && row.managerCode != "" &&
        if OnSomeRow(rows, row.managerCode)
        then exists m :: m in rows && m.code == row.managerCode && Doomed(existing, rows, m, depth - 1)
        else !Exists(existing, row.managerCode))
  }

  /** The least set of rows that holds the failing ones and those whose manager is unknown or on a row in the set. */
  ghost predicate MustFail(existing: seq<Employee>, rows: seq<Row>, row: Row) {
    exists depth: nat :: Doomed(existing, rows, row, depth)
  }

  /** The stored links with the links of the passing rows on top. */
  function LinksBefore(existing: seq<Employee>, rows: seq<Row>): map<Id, Id> {
    Begin(existing, rows).managerOf
  }

  /** The chain of managers of a passing row, stored and new, meets somebody twice. */
  ghost predicate Loops(existing: seq<Employee>, rows: seq<Row>, row: Row) {
    Links(row) && !NeverRevisits(LinksBefore(existing, rows), row.code)
  }

  /** The first `n` on the chain from `id` are all on passing rows that name a manager. */
  ghost predicate AlongRows(existing: seq<Employee>, rows: seq<Row>, id: Id, n: nat) {
    forall j: nat :: j < n ==> LinksOn(rows, Follow(LinksBefore(existing, rows), id, j))
  }

  /** The chain from `id` reaches `code` before it leaves those rows. */
  ghost predicate ReachedAlong(existing: seq<Employee>, rows: seq<Row>, id: Id, code: Id) {
    exists j: nat :: Follow(LinksBefore(existing, rows), id, j) == code && AlongRows(existing, rows, id, j)
  }

  /** Once the chain from `id` has left those rows, it meets none that it has not met before. */
  ghost predicate Tied(existing: seq<Employee>, rows: seq<Row>, id: Id) {
    forall k: nat :: LinksOn(rows, Follow(LinksBefore(existing, rows), id, k)) ==>
      ReachedAlong(existing, rows, id, Follow(LinksBefore(existing, rows), id, k))
  }

  /** Each looping row fails without the passes, or is tied to all rows of its chain. */
  ghost predicate LoopsAreTied(existing: seq<Employee>, rows: seq<Row>) {
    forall row :: row in rows && Loops(existing, rows, row) ==>
      MustFail(existing, rows, row) || Tied(existing, rows, row.code)
  }

  /** A passing row has a code, and no other row has it: what flagging the duplicates leaves. */
  ghost predicate CodesApart(rows: seq<Row>) {
    forall row :: row in rows && Passes(row) ==>
      row.code != "" && multiset(rows)[row] == 1 &&
        forall other :: other in rows && other.code == row.code ==> other == row
  }

  lemma TwiceInMultiset<T>(s: seq<T>, i: nat, j: nat)
    requires i < j < |s| && s[i] == s[j]
    ensures multiset(s)[s[i]] >= 2
  {
    assert s == s[..j] + [s[j]] + s[j + 1..];
    assert s[..j][i] == s[i];
    assert s[i] in multiset(s[..j]);
  }

  lemma OnceInMultiset<T>(s: seq<T>, i: nat)
    requires i < |s| && forall k :: 0 <= k < |s| && k != i ==> s[k] != s[i]
    ensures multiset(s)[s[i]] == 1
  {
    assert s == s[..i] + [s[i]] + s[i + 1..];
    assert s[i] !in s[..i] && s[i] !in s[i + 1..];
  }

  lemma ApartIsDistinct(rows: seq<Row>)
    requires CodesApart(rows)
    ensures DistinctCodes(rows)
  {
    forall i, j | 0 <= i < j < |rows| && Passes(rows[i]) && Passes(rows[j])
      ensures rows[i].code != rows[j].code
    {
      if rows[i].code == rows[j].code {
        assert rows[j] in rows && rows[i] == rows[j];
        TwiceInMultiset(rows, i, j);
      }
    }
    forall i | 0 <= i < |rows| && Passes(rows[i])
      ensures rows[i].code != ""
    {
      assert rows[i] in rows;
    }
  }

  lemma FlaggedIsApart(rows: seq<Row>)
    requires CodesRead(rows)
    ensures CodesApart(Flagged(rows))
  {
    var flagged := Flagged(rows);
    forall row | row in flagged && Passes(row)
      ensures row.code != "" && multiset(flagged)[row] == 1
      ensures forall other :: other in flagged && other.code == row.code ==> other == row
    {
      var i :| 0 <= i < |flagged| && flagged[i] == row;
      assert flagged[i] == rows[i] && !Repeated(rows, i);
      forall k | 0 <= k < |flagged| && k != i
        ensures flagged[k].code != row.code
      {
        assert flagged[k].code == rows[k].code;
      }
      OnceInMultiset(flagged, i);
    }
  }

  // ---- Rows that fail must fail or loop ----

  ghost predicate FailingRightly(existing: seq<Employee>, rows: seq<Row>, plan: Plan) {
    |plan.rows| == |rows| && forall i :: 0 <= i < |rows| && !Passes(plan.rows[i]) ==>
      MustFail(existing, rows, rows[i]) || Loops(existing, rows, rows[i])
  }

  lemma StepFailsRightly(existing: seq<Employee>, rows: seq<Row>, plan: Plan, i: nat)
    requires DistinctCodes(rows) && i < |plan.rows|
    requires FailedFrom(Begin(existing, rows), plan) && FailingRightly(existing, rows, plan)
    ensures FailingRightly(existing, rows, StepOn(existing, plan, i))
  {
    hide NeverRevisits;
    hide Linked;
    hide Doomed;
    var begin := Begin(existing, rows);
    var problem := ProblemOf(existing, plan, i);
    if problem.Some? {
      var row := rows[i];
      assert SameRow(begin.rows[i], plan.rows[i]) && plan.rows[i].errors == row.errors == [];
      if problem.value.ReportingCycle? {
        RevisitsInWhole(begin.managerOf, plan.managerOf, row.code);
      } else {
        ManagerFails(existing, rows, plan, i);
      }
    }
  }

  lemma RevisitsBelow(managers: map<Id, Id>, id: Id)
    requires id != "" && !NeverRevisits(managers, ManagerOf(managers, id))
    ensures !NeverRevisits(managers, id)
  {
    var first: nat, period: nat :| MeetsAgain(managers, ManagerOf(managers, id), first, period);
    assert MeetsAgain(managers, id, first + 1, period);
  }

  lemma ManagerDooms(existing: seq<Employee>, rows: seq<Row>, row: Row, manager: Row)
    requires manager in rows && Links(row) && manager.code == row.managerCode && MustFail(existing, rows, manager)
    ensures MustFail(existing, rows, row)
  {
    var depth: nat :| Doomed(existing, rows, manager, depth);
    assert OnSomeRow(rows, row.managerCode);
    assert Doomed(existing, rows, row, depth + 1);
  }

  /** A problem other than a cycle makes the row one that must fail, or its chain runs into a loop. */
  lemma ManagerFails(existing: seq<Employee>, rows: seq<Row>, plan: Plan, i: nat)
    requires DistinctCodes(rows) && i < |plan.rows| == |rows| && FailingRightly(existing, rows, plan)
    requires forall k :: 0 <= k < |rows| ==> SameRow(rows[k], plan.rows[k])
    requires Links(rows[i]) && ProblemOf(existing, plan, i).Some?
    requires !ProblemOf(existing, plan, i).value.ReportingCycle?
    ensures MustFail(existing, rows, rows[i]) || Loops(existing, rows, rows[i])
  {
    hide NeverRevisits;
    hide Linked;
    var row := rows[i];
    var manager := LastRow(plan.rows, row.managerCode);
    if manager >= 0 {
      assert SameRow(rows[manager], plan.rows[manager]) && rows[manager] in rows;
      if MustFail(existing, rows, rows[manager]) {
        ManagerDooms(existing, rows, row, rows[manager]);
      } else {
        LinkedHere(Stored(existing), rows, i);
        RevisitsBelow(LinksBefore(existing, rows), row.code);
      }
    } else {
      UnknownIsDoomed(existing, rows, plan, i);
    }
  }

  lemma UnknownIsDoomed(existing: seq<Employee>, rows: seq<Row>, plan: Plan, i: nat)
    requires i < |plan.rows| == |rows| && forall k :: 0 <= k < |rows| ==> SameRow(rows[k], plan.rows[k])
    requires rows[i].managerCode != "" && LastRow(plan.rows, rows[i].managerCode) < 0
    requires !Exists(existing, rows[i].managerCode)
    ensures MustFail(existing, rows, rows[i])
  {
    forall m | m in rows
      ensures m.code != rows[i].managerCode
    {
      var k :| 0 <= k < |rows| && rows[k] == m;
      assert SameRow(rows[k], plan.rows[k]);
    }
    assert Doomed(existing, rows, rows[i], 1);
  }

  lemma {:induction false} PassFailsRightly(existing: seq<Employee>, rows: seq<Row>, plan: Plan, i: nat)
    requires DistinctCodes(rows)
    requires Kept(existing, Begin(existing, rows), plan) && FailingRightly(existing, rows, plan)
    ensures FailingRightly(existing, rows, Pass(existing, plan, i))
    decreases |plan.rows| - i
  {
    hide FailingRightly;
    hide FailedFrom;
    hide LinksExplained;
    hide DistinctCodes;
    hide Begin;
    if i < |plan.rows| {
      StepFailsRightly(existing, rows, plan, i);
      StepKeepsLinks(existing, plan, i);
      StepKeepsReasons(existing, Begin(existing, rows), plan, i);
      PassFailsRightly(existing, rows, StepOn(existing, plan, i), i + 1);
    }
  }

  lemma {:induction false} SettleFailsRightly(existing: seq<Employee>, rows: seq<Row>, plan: Plan)
    requires DistinctCodes(rows)
    requires Kept(existing, Begin(existing, rows), plan) && FailingRightly(existing, rows, plan)
    ensures FailingRightly(existing, rows, Settle(existing, plan))
    decreases PassingCount(plan.rows)
  {
    hide FailingRightly;
    hide DistinctCodes;
    hide Kept;
    hide Begin;
    PassKeeps(existing, Begin(existing, rows), plan, 0);
    PassFailsRightly(existing, rows, plan, 0);
    PassProgress(existing, plan, 0);
    if Pass(existing, plan, 0) != plan {
      SettleFailsRightly(existing, rows, Pass(existing, plan, 0));
    }
  }

  lemma ResolvedFailsRightly(existing: seq<Employee>, rows: seq<Row>)
    requires DistinctCodes(rows)
    ensures FailingRightly(existing, rows, Resolved(existing, rows))
  {
    LinkedExplained(existing, rows);
    forall k | 0 <= k < |rows| && !Passes(rows[k])
      ensures MustFail(existing, rows, rows[k])
    {
      assert Doomed(existing, rows, rows[k], 0);
    }
    SettleFailsRightly(existing, rows, Begin(existing, rows));
  }

  // ---- Rows that must fail do fail ----

  /** If any row with the manager's code fails in the plan, so does the last one. */
  lemma FailingManagerIsLast(rows: seq<Row>, plan: Plan, code: Id, k: nat)
    requires CodesApart(rows) && k < |rows| == |plan.rows| && code != ""
    requires forall j ::
      0 <= j < |rows| ==> SameRow(rows[j], plan.rows[j]) && (Passes(plan.rows[j]) ==> Passes(rows[j]))
    requires rows[k].code == code && !Passes(plan.rows[k])
    ensures LastRow(plan.rows, code) >= 0 && !Passes(plan.rows[LastRow(plan.rows, code)])
  {
    var manager := LastRow(plan.rows, code);
    assert SameRow(rows[k], plan.rows[k]);
    assert SameRow(rows[manager], plan.rows[manager]);
    assert rows[manager] in rows && rows[k] in rows;
    if manager != k && rows[manager] == rows[k] {
      TwiceInMultiset(rows, if k < manager then k else manager, if k < manager then manager else k);
    }
  }

  lemma LastRowIsOnSome(rows: seq<Row>, plan: Plan, code: Id)
    requires |rows| == |plan.rows| && code != "" && forall j :: 0 <= j < |rows| ==> SameRow(rows[j], plan.rows[j])
    ensures LastRow(plan.rows, code) >= 0 ==> OnSomeRow(rows, code)
  {
    var manager := LastRow(plan.rows, code);
    if manager >= 0 {
      assert SameRow(rows[manager], plan.rows[manager]);
      assert rows[manager] in rows;
    }
  }

  lemma DoomedManagerIsProblem(existing: seq<Employee>, rows: seq<Row>, plan: Plan, i: nat)
    requires CodesApart(rows) && i < |rows| == |plan.rows| && Links(plan.rows[i])
    requires forall j ::
      0 <= j < |rows| ==> SameRow(rows[j], plan.rows[j]) && (Passes(plan.rows[j]) ==> Passes(rows[j]))
    requires if OnSomeRow(rows, rows[i].managerCode)
             then exists k :: 0 <= k < |rows| && rows[k].code == rows[i].managerCode && !Passes(plan.rows[k])
             else !Exists(existing, rows[i].managerCode)
    ensures ProblemOf(existing, plan, i).Some?
  {
    hide NeverRevisits;
    assert SameRow(rows[i], plan.rows[i]);
    var code := rows[i].managerCode;
    if OnSomeRow(rows, code) {
      var k :| 0 <= k < |rows| && rows[k].code == code && !Passes(plan.rows[k]);
      FailingManagerIsLast(rows, plan, code, k);
    } else {
      LastRowIsOnSome(rows, plan, code);
    }
  }

  lemma {:induction false} MustFailFails(existing: seq<Employee>, rows: seq<Row>, plan: Plan, i: nat, depth: nat)
    requires CodesApart(rows) && i < |rows| == |plan.rows| && Doomed(existing, rows, rows[i], depth)
    requires forall j ::
      0 <= j < |rows| ==> SameRow(rows[j], plan.rows[j]) && (Passes(plan.rows[j]) ==> Passes(rows[j]))
    requires forall k: nat :: k < |plan.rows| ==> ProblemOf(existing, plan, k).None?
    ensures !Passes(plan.rows[i])
    decreases depth
  {
    hide NeverRevisits;
    hide CodesApart;
    hide ProblemOf;
    var row := rows[i];
    assert SameRow(row, plan.rows[i]);
    if Passes(row) {
      if OnSomeRow(rows, row.managerCode) {
        var m :| m in rows && m.code == row.managerCode && Doomed(existing, rows, m, depth - 1);
        var k :| 0 <= k < |rows| && rows[k] == m;
        MustFailFails(existing, rows, plan, k, depth - 1);
      }
      if Passes(plan.rows[i]) {
        DoomedManagerIsProblem(existing, rows, plan, i);
      }
    }
  }

  lemma MustFailIsFailed(existing: seq<Employee>, rows: seq<Row>, i: nat)
    requires CodesApart(rows) && i < |rows| && MustFail(existing, rows, rows[i])
    ensures |Resolved(existing, rows).rows| == |rows| && !Passes(Resolved(existing, rows).rows[i])
  {
    ApartIsDistinct(rows);
    ResolvedIsKept(existing, rows);
    var depth: nat :| Doomed(existing, rows, rows[i], depth);
    var begin, plan := Begin(existing, rows), Resolved(existing, rows);
    hide Settle;
    hide ProblemOf;
    forall j | 0 <= j < |rows|
      ensures SameRow(rows[j], plan.rows[j]) && (Passes(plan.rows[j]) ==> Passes(rows[j]))
    {
      assert SameRow(begin.rows[j], plan.rows[j]);
    }
    MustFailFails(existing, rows, plan, i, depth);
  }

  // ---- Rows tied to their loop fail ----

  /** A passing row in the plan with this code names a manager. */
  ghost predicate Survives(plan: Plan, code: Id) {
    exists k :: 0 <= k < |plan.rows| && plan.rows[k].code == code && Links(plan.rows[k])
  }

  /** A row that passes in the end passed before, and its link is there before and after. */
  lemma SurvivorLinks(existing: seq<Employee>, rows: seq<Row>, k: nat)
    requires CodesApart(rows) && k < |Resolved(existing, rows).rows| && Links(Resolved(existing, rows).rows[k])
    ensures var row := Resolved(existing, rows).rows[k];
      && k < |rows| && rows[k] == row && row.code != ""
      && ManagerOf(LinksBefore(existing, rows), row.code) == row.managerCode
      && ManagerOf(Resolved(existing, rows).managerOf, row.code) == row.managerCode
  {
    ApartIsDistinct(rows);
    ResolvedIsKept(existing, rows);
    var plan := Resolved(existing, rows);
    hide Resolved;
    hide Linked;
    hide ProblemOf;
    hide CodesApart;
    assert SameRow(rows[k], plan.rows[k]);
    LinkedHere(Stored(existing), rows, k);
  }

  lemma ManagerSurvives(existing: seq<Employee>, rows: seq<Row>, k: nat)
    requires CodesApart(rows) && k < |Resolved(existing, rows).rows| && Links(Resolved(existing, rows).rows[k])
    requires LinksOn(rows, Resolved(existing, rows).rows[k].managerCode)
    ensures Survives(Resolved(existing, rows), Resolved(existing, rows).rows[k].managerCode)
  {
    ApartIsDistinct(rows);
    ResolvedIsKept(existing, rows);
    var plan := Resolved(existing, rows);
    hide Resolved;
    hide Linked;
    hide NeverRevisits;
    hide LinksExplained;
    var m :| m in rows && m.code == plan.rows[k].managerCode && Links(m);
    var at :| 0 <= at < |rows| && rows[at] == m;
    assert SameRow(rows[at], plan.rows[at]);
    var manager := LastRow(plan.rows, m.code);
    assert ProblemOf(existing, plan, k).None?;
    assert SameRow(rows[manager], plan.rows[manager]) && rows[manager] in rows;
  }

  lemma NextSurvives(existing: seq<Employee>, rows: seq<Row>, code: Id)
    requires CodesApart(rows) && Survives(Resolved(existing, rows), code)
    requires LinksOn(rows, ManagerOf(LinksBefore(existing, rows), code))
    ensures code != "" && Survives(Resolved(existing, rows), ManagerOf(LinksBefore(existing, rows), code))
  {
    var plan := Resolved(existing, rows);
    hide Resolved;
    hide LinksBefore;
    hide CodesApart;
    hide LinksOn;
    var k: nat :| k < |plan.rows| && plan.rows[k].code == code && Links(plan.rows[k]);
    SurvivorLinks(existing, rows, k);
    ManagerSurvives(existing, rows, k);
  }

  /** With a row passing in the end, so do all that its chain meets before it leaves the rows. */
  lemma {:induction false} AlongSurvives(existing: seq<Employee>, rows: seq<Row>, id: Id, j: nat)
    requires CodesApart(rows) && Survives(Resolved(existing, rows), id) && AlongRows(existing, rows, id, j + 1)
    ensures Survives(Resolved(existing, rows), Follow(LinksBefore(existing, rows), id, j))
    decreases j
  {
    hide Resolved;
    hide LinksBefore;
    hide CodesApart;
    hide LinksOn;
    hide Survives;
    if j > 0 {
      AlongSurvives(existing, rows, id, j - 1);
      var before := Follow(LinksBefore(existing, rows), id, j - 1);
      assert LinksOn(rows, Follow(LinksBefore(existing, rows), id, j));
      FollowOnce(LinksBefore(existing, rows), id, j - 1);
      if before != "" {
        NextSurvives(existing, rows, before);
      }
    }
  }

  lemma RowsReachedSurvive(existing: seq<Employee>, rows: seq<Row>, i: nat, code: Id)
    requires CodesApart(rows) && i < |rows| == |Resolved(existing, rows).rows|
    requires Links(Resolved(existing, rows).rows[i])
    requires ReachedAlong(existing, rows, rows[i].code, code) && LinksOn(rows, code)
    ensures Survives(Resolved(existing, rows), code)
  {
    hide Resolved;
    hide LinksBefore;
    hide CodesApart;
    hide LinksOn;
    var id := rows[i].code;
    SurvivorLinks(existing, rows, i);
    var j: nat :| Follow(LinksBefore(existing, rows), id, j) == code && AlongRows(existing, rows, id, j);
    assert AlongRows(existing, rows, id, j + 1);
    AlongSurvives(existing, rows, id, j);
  }

  lemma OtherLinksStay(existing: seq<Employee>, rows: seq<Row>, code: Id)
    requires CodesApart(rows) && !LinksOn(rows, code)
    ensures ManagerOf(LinksBefore(existing, rows), code) == ManagerOf(Resolved(existing, rows).managerOf, code)
  {
    ApartIsDistinct(rows);
    ResolvedIsKept(existing, rows);
    var begin, plan := Begin(existing, rows), Resolved(existing, rows);
    hide Resolved;
    hide Linked;
    hide ProblemOf;
    hide LinksExplained;
    if code in begin.managerOf && code !in plan.managerOf {
      var at :| FailedHere(begin, plan, at) && plan.rows[at].code == code;
      FailedRowLinks(existing, rows, plan, at);
    }
  }

  lemma FailedRowLinks(existing: seq<Employee>, rows: seq<Row>, plan: Plan, i: nat)
    requires FailedFrom(Begin(existing, rows), plan) && FailedHere(Begin(existing, rows), plan, i)
    ensures LinksOn(rows, plan.rows[i].code)
  {
    assert SameRow(rows[i], plan.rows[i]) && rows[i] in rows;
  }

  /** So all links of a tied chain are there in the end. */
  lemma TiedLinkStays(existing: seq<Employee>, rows: seq<Row>, i: nat, k: nat)
    requires CodesApart(rows) && i < |rows| == |Resolved(existing, rows).rows|
    requires Links(Resolved(existing, rows).rows[i]) && Tied(existing, rows, rows[i].code)
    ensures var x := Follow(LinksBefore(existing, rows), rows[i].code, k);
      ManagerOf(LinksBefore(existing, rows), x) == ManagerOf(Resolved(existing, rows).managerOf, x)
  {
    var plan, all, id := Resolved(existing, rows), LinksBefore(existing, rows), rows[i].code;
    hide Resolved;
    hide LinksBefore;
    hide CodesApart;
    hide LinksOn;
    var x := Follow(all, id, k);
    if LinksOn(rows, x) {
      RowsReachedSurvive(existing, rows, i, x);
      var at: nat :| at < |plan.rows| && plan.rows[at].code == x && Links(plan.rows[at]);
      SurvivorLinks(existing, rows, at);
    } else {
      OtherLinksStay(existing, rows, x);
    }
  }

  lemma TiedFails(existing: seq<Employee>, rows: seq<Row>, i: nat)
    requires CodesApart(rows) && i < |rows|
    requires Loops(existing, rows, rows[i]) && Tied(existing, rows, rows[i].code)
    ensures |Resolved(existing, rows).rows| == |rows| && !Passes(Resolved(existing, rows).rows[i])
  {
    ApartIsDistinct(rows);
    ResolvedIsKept(existing, rows);
    var plan, all, id := Resolved(existing, rows), LinksBefore(existing, rows), rows[i].code;
    hide Resolved;
    hide LinksBefore;
    hide CodesApart;
    hide Tied;
    hide ProblemOf;
    hide NeverRevisits;
    assert SameRow(rows[i], plan.rows[i]);
    hide Kept;
    if Passes(plan.rows[i]) {
      forall k: nat
        ensures ManagerOf(all, Follow(all, id, k)) == ManagerOf(plan.managerOf, Follow(all, id, k))
      {
        TiedLinkStays(existing, rows, i, k);
      }
      SameRevisits(all, plan.managerOf, id);
      SurvivorsAreSound(existing, rows, i);
    }
  }

  lemma SameRevisits(a: map<Id, Id>, b: map<Id, Id>, id: Id)
    requires forall k: nat :: ManagerOf(a, Follow(a, id, k)) == ManagerOf(b, Follow(a, id, k))
    requires !NeverRevisits(a, id)
    ensures !NeverRevisits(b, id)
  {
    var first: nat, period: nat :| MeetsAgain(a, id, first, period);
    SameChain(a, b, id, first);
    SameChain(a, b, id, first + period);
    assert MeetsAgain(b, id, first, period);
  }

  /** Which rows fail, if the loops are tied: those that must, and those that loop. */
  lemma TiedFailures(existing: seq<Employee>, rows: seq<Row>, i: nat)
    requires CodesApart(rows) && LoopsAreTied(existing, rows) && i < |rows|
    ensures |Resolved(existing, rows).rows| == |rows|
    ensures Passes(Resolved(existing, rows).rows[i]) <==>
      !MustFail(existing, rows, rows[i]) && !Loops(existing, rows, rows[i])
  {
    ApartIsDistinct(rows);
    ResolvedFailsRightly(existing, rows);
    hide Settle;
    assert rows[i] in rows;
    if MustFail(existing, rows, rows[i]) {
      MustFailIsFailed(existing, rows, i);
    } else if Loops(existing, rows, rows[i]) {
      TiedFails(existing, rows, i);
    }
  }

  /** Without loops the resolution fails exactly the least set. */
  lemma FailuresAreLeast(existing: seq<Employee>, rows: seq<Row>, i: nat)
    requires CodesApart(rows) && i < |rows| && forall row :: row in rows ==> !Loops(existing, rows, row)
    ensures |Resolved(existing, rows).rows| == |rows|
    ensures Passes(Resolved(existing, rows).rows[i]) <==> !MustFail(existing, rows, rows[i])
  {
    TiedFailures(existing, rows, i);
    assert rows[i] in rows;
  }

  // ---- All of this is said of the rows in any order ----

  lemma {:induction false} DoomedAnyOrder(existing: seq<Employee>, rows: seq<Row>, others: seq<Row>, row: Row,
      depth: nat)
    requires (forall m :: m in rows <==> m in others) && Doomed(existing, rows, row, depth)
    ensures Doomed(existing, others, row, depth)
    decreases depth
  {
    assert OnSomeRow(rows, row.managerCode) <==> OnSomeRow(others, row.managerCode);
    if Passes(row) && OnSomeRow(rows, row.managerCode) {
      var m :| m in rows && m.code == row.managerCode && Doomed(existing, rows, m, depth - 1);
      DoomedAnyOrder(existing, rows, others, m, depth - 1);
    }
  }

  lemma SameMembers(rows: seq<Row>, others: seq<Row>)
    requires multiset(rows) == multiset(others)
    ensures forall m :: m in rows <==> m in others
  {
    assert forall m :: m in rows <==> m in multiset(rows);
    assert forall m :: m in others <==> m in multiset(others);
  }

  /** The links on top of the stored ones are the same in any order. */
  lemma LinksAnyOrder(existing: seq<Employee>, rows: seq<Row>, others: seq<Row>, code: Id)
    requires DistinctCodes(rows) && DistinctCodes(others) && forall m :: m in rows <==> m in others
    ensures ManagerOf(Begin(existing, rows).managerOf, code) == ManagerOf(Begin(existing, others).managerOf, code)
  {
    hide Stored;
    hide Linked;
    var stored := Stored(existing);
    if row :| row in rows && row.code == code && Links(row) {
      var i :| 0 <= i < |rows| && rows[i] == row;
      var j :| 0 <= j < |others| && others[j] == row;
      LinkedHere(stored, rows, i);
      LinkedHere(stored, others, j);
    } else {
      if ManagerOf(Linked(stored, rows), code) != ManagerOf(stored, code) {
        LinkedElsewhere(stored, rows, code);
      }
      if ManagerOf(Linked(stored, others), code) != ManagerOf(stored, code) {
        LinkedElsewhere(stored, others, code);
      }
    }
  }

  lemma {:induction false} LinkedKeys(managerOf: map<Id, Id>, rows: seq<Row>, code: Id)
    requires CodesRead(rows)
    ensures code in Linked(managerOf, rows) <==> code in managerOf || LinksOn(rows, code)
  {
    if rows != [] {
      var before, last := rows[..|rows| - 1], rows[|rows| - 1];
      LinkedKeys(managerOf, before, code);
      assert rows == before + [last];
      assert LinksOn(rows, code) <==> LinksOn(before, code) || (last.code == code && Links(last)) by {
        assert forall m :: m in rows <==> m in before || m == last;
      }
    }
  }

  lemma SameLinksAnyOrder(existing: seq<Employee>, rows: seq<Row>, others: seq<Row>)
    requires CodesApart(rows) && multiset(rows) == multiset(others)
    ensures CodesApart(others) && LinksBefore(existing, rows) == LinksBefore(existing, others)
  {
    SameMembers(rows, others);
    assert CodesApart(others);
    ApartIsDistinct(rows);
    ApartIsDistinct(others);
    hide Linked;
    hide CodesApart;
    var a, b := LinksBefore(existing, rows), LinksBefore(existing, others);
    forall code: Id
      ensures code in a <==> code in b
      ensures ManagerOf(a, code) == ManagerOf(b, code)
    {
      LinkedKeys(Stored(existing), rows, code);
      LinkedKeys(Stored(existing), others, code);
      LinksAnyOrder(existing, rows, others, code);
    }
    assert a == b by {
      assert forall code :: code in a ==> a[code] == ManagerOf(a, code) == ManagerOf(b, code) == b[code];
    }
  }

  lemma MustFailAnyOrder(existing: seq<Employee>, rows: seq<Row>, others: seq<Row>, row: Row)
    requires multiset(rows) == multiset(others)
    ensures MustFail(existing, rows, row) <==> MustFail(existing, others, row)
  {
    SameMembers(rows, others);
    hide Doomed;
    if depth: nat :| Doomed(existing, rows, row, depth) {
      DoomedAnyOrder(existing, rows, others, row, depth);
    }
    if depth: nat :| Doomed(existing, others, row, depth) {
      DoomedAnyOrder(existing, others, rows, row, depth);
    }
  }

  lemma TiedAnyOrder(existing: seq<Employee>, rows: seq<Row>, others: seq<Row>)
    requires CodesApart(rows) && multiset(rows) == multiset(others) && LoopsAreTied(existing, rows)
    ensures LoopsAreTied(existing, others)
  {
    SameMembers(rows, others);
    SameLinksAnyOrder(existing, rows, others);
    hide LinksBefore;
    hide MustFail;
    assert forall code :: LinksOn(rows, code) <==> LinksOn(others, code);
    hide LinksOn;
    forall row | row in others && Loops(existing, others, row)
      ensures MustFail(existing, others, row) || Tied(existing, others, row.code)
    {
      MustFailAnyOrder(existing, rows, others, row);
      assert Loops(existing, rows, row);
      if Tied(existing, rows, row.code) {
        assert forall j: nat :: AlongRows(existing, rows, row.code, j) <==> AlongRows(existing, others, row.code, j);
        hide AlongRows;
        assert forall code ::
          ReachedAlong(existing, rows, row.code, code) <==> ReachedAlong(existing, others, row.code, code);
        assert Tied(existing, others, row.code);
      }
    }
  }

  // ---- Rows that are not tied ----

  /** With the row of `cut` failed first, nothing befalls the passing rows with these codes. */
  ghost predicate Safe(existing: seq<Employee>, rows: seq<Row>, codes: set<Id>, cut: Id) {
    cut != "" && cut !in codes && forall row :: row in rows && Links(row) && row.code in codes ==>
      && !MustFail(existing, rows, row)
      && (LinksOn(rows, row.managerCode) ==> row.managerCode in codes)
      && exists n: nat :: Follow(LinksBefore(existing, rows), row.code, n) == cut
  }

  /** The first row has failed, which ends all chains that met it, and no safe row has failed. */
  ghost predicate CutOff(rows: seq<Row>, plan: Plan, codes: set<Id>, cut: Id) {
    && 0 < |rows| == |plan.rows| && !Passes(plan.rows[0]) && cut !in plan.managerOf
    && forall i :: 0 <= i < |rows| && Links(rows[i]) && rows[i].code in codes ==> Passes(plan.rows[i])
  }

  lemma CutChainEnds(all: map<Id, Id>, some: map<Id, Id>, id: Id, n: nat, cut: Id)
    requires forall code :: code in some ==> code in all && all[code] == some[code]
    requires Follow(all, id, n) == cut && cut !in some
    ensures NeverRevisits(some, id)
  {
    FewerLinks(all, some, id, n);
    FollowOnce(some, id, n);
    EndsSoNeverRevisits(some, id, n + 1);
  }

  lemma FailingManager(existing: seq<Employee>, rows: seq<Row>, plan: Plan, i: nat, manager: nat)
    requires FailedFrom(Begin(existing, rows), plan) && i < |rows| && manager < |rows|
    requires !Passes(plan.rows[manager]) && plan.rows[manager].code == rows[i].managerCode != ""
    ensures (LinksOn(rows, rows[i].managerCode) && Links(rows[manager])) || MustFail(existing, rows, rows[i])
    ensures rows[manager].code == rows[i].managerCode
  {
    hide Linked;
    hide NeverRevisits;
    var m, begin := rows[manager], Begin(existing, rows);
    assert SameRow(begin.rows[manager], plan.rows[manager]) && m in rows;
    if !Passes(m) {
      assert Doomed(existing, rows, m, 0) && OnSomeRow(rows, rows[i].managerCode);
      assert Doomed(existing, rows, rows[i], 1);
    }
  }

  lemma SafeHasNoProblem(existing: seq<Employee>, rows: seq<Row>, plan: Plan, i: nat, codes: set<Id>, cut: Id)
    requires CodesApart(rows) && Safe(existing, rows, codes, cut) && CutOff(rows, plan, codes, cut)
    requires FailedFrom(Begin(existing, rows), plan) && i < |rows| && rows[i].code in codes && Links(rows[i])
    ensures ProblemOf(existing, plan, i).None?
  {
    hide NeverRevisits;
    hide Linked;
    var row, problem, begin := rows[i], ProblemOf(existing, plan, i), Begin(existing, rows);
    assert SameRow(begin.rows[i], plan.rows[i]) && row in rows;
    assert NeverRevisits(plan.managerOf, row.code) by {
      var n: nat :| Follow(LinksBefore(existing, rows), row.code, n) == cut;
      CutChainEnds(begin.managerOf, plan.managerOf, row.code, n, cut);
    }
    assert forall k :: 0 <= k < |rows| ==> SameRow(begin.rows[k], plan.rows[k]);
    var manager := LastRow(plan.rows, row.managerCode);
    if manager >= 0 && !Passes(plan.rows[manager]) {
      FailingManager(existing, rows, plan, i, manager);
    } else if manager < 0 && !Exists(existing, row.managerCode) {
      UnknownIsDoomed(existing, rows, plan, i);
    }
  }

  lemma StepKeepsCut(existing: seq<Employee>, rows: seq<Row>, plan: Plan, i: nat, codes: set<Id>, cut: Id)
    requires CodesApart(rows) && Safe(existing, rows, codes, cut) && CutOff(rows, plan, codes, cut)
    requires FailedFrom(Begin(existing, rows), plan) && i < |rows|
    ensures CutOff(rows, StepOn(existing, plan, i), codes, cut)
  {
    hide ProblemOf;
    hide Safe;
    hide CodesApart;
    var problem := ProblemOf(existing, plan, i);
    if problem.Some? {
      assert SameRow(Begin(existing, rows).rows[i], plan.rows[i]);
      forall j | 0 <= j < |rows| && Links(rows[j]) && rows[j].code in codes
        ensures j != i
      {
        SafeHasNoProblem(existing, rows, plan, j, codes, cut);
      }
    }
  }

  lemma {:induction false} PassKeepsCut(existing: seq<Employee>, rows: seq<Row>, plan: Plan, i: nat, codes: set<Id>,
      cut: Id)
    requires CodesApart(rows) && Safe(existing, rows, codes, cut) && CutOff(rows, plan, codes, cut)
    requires Kept(existing, Begin(existing, rows), plan)
    ensures CutOff(rows, Pass(existing, plan, i), codes, cut)
    decreases |plan.rows| - i
  {
    hide CutOff;
    hide Safe;
    hide CodesApart;
    hide FailedFrom;
    hide LinksExplained;
    hide DistinctCodes;
    if i < |plan.rows| {
      assert |plan.rows| == |rows| by {
        hide *;
        CutLength(rows, plan, codes, cut);
      }
      StepKeepsCut(existing, rows, plan, i, codes, cut);
      StepKeepsLinks(existing, plan, i);
      StepKeepsReasons(existing, Begin(existing, rows), plan, i);
      PassKeepsCut(existing, rows, StepOn(existing, plan, i), i + 1, codes, cut);
    }
  }

  lemma CutLength(rows: seq<Row>, plan: Plan, codes: set<Id>, cut: Id)
    requires CutOff(rows, plan, codes, cut)
    ensures |plan.rows| == |rows|
  {
  }

  lemma {:induction false} SettleKeepsCut(existing: seq<Employee>, rows: seq<Row>, plan: Plan, codes: set<Id>, cut: Id)
    requires CodesApart(rows) && Safe(existing, rows, codes, cut) && CutOff(rows, plan, codes, cut)
    requires Kept(existing, Begin(existing, rows), plan)
    ensures CutOff(rows, Settle(existing, plan), codes, cut)
    decreases PassingCount(plan.rows)
  {
    hide CutOff;
    hide Safe;
    hide CodesApart;
    hide Kept;
    PassKeeps(existing, Begin(existing, rows), plan, 0);
    PassKeepsCut(existing, rows, plan, 0, codes, cut);
    PassProgress(existing, plan, 0);
    if Pass(existing, plan, 0) != plan {
      SettleKeepsCut(existing, rows, Pass(existing, plan, 0), codes, cut);
    }
  }

  /** A looping row fails if it is listed first, and what that makes safe passes. */
  lemma CutFirst(existing: seq<Employee>, rows: seq<Row>, codes: set<Id>)
    requires CodesApart(rows) && rows != [] && Loops(existing, rows, rows[0])
    requires Safe(existing, rows, codes, rows[0].code)
    ensures CutOff(rows, Resolved(existing, rows), codes, rows[0].code)
  {
    ApartIsDistinct(rows);
    LinkedExplained(existing, rows);
    var begin, cut := Begin(existing, rows), rows[0].code;
    hide Linked;
    var problem := ProblemOf(existing, begin, 0);
    assert problem.Some?;
    var next := StepOn(existing, begin, 0);
    assert CutOff(rows, next, codes, cut);
    StepKeepsLinks(existing, begin, 0);
    StepKeepsReasons(existing, begin, begin, 0);
    PassKeepsCut(existing, rows, next, 1, codes, cut);
    var after := Pass(existing, begin, 0);
    assert after == Pass(existing, next, 1) && !Passes(after.rows[0]) && after != begin;
    PassKeeps(existing, begin, begin, 0);
    SettleStep(existing, begin);
    SettleKeepsCut(existing, rows, after, codes, cut);
  }

  function Promoted(rows: seq<Row>, i: nat): seq<Row>
    requires i < |rows|
  {
    [rows[i]] + rows[..i] + rows[i + 1..]
  }

  lemma PromotedIsReordered(rows: seq<Row>, i: nat)
    requires i < |rows|
    ensures multiset(rows) == multiset(Promoted(rows, i))
  {
    assert rows == rows[..i] + [rows[i]] + rows[i + 1..];
  }

  /** Where the chain leaves the rows for the first time. */
  lemma LeavesRows(existing: seq<Employee>, rows: seq<Row>, id: Id, k: nat) returns (off: nat)
    requires !AlongRows(existing, rows, id, k)
    ensures off < k && AlongRows(existing, rows, id, off)
    ensures !LinksOn(rows, Follow(LinksBefore(existing, rows), id, off))
  {
    off := 0;
    while LinksOn(rows, Follow(LinksBefore(existing, rows), id, off))
      invariant off < k && AlongRows(existing, rows, id, off)
      decreases k - off
    {
      off := off + 1;
    }
  }

  lemma ManagerIsNext(existing: seq<Employee>, rows: seq<Row>, row: Row)
    requires DistinctCodes(rows) && row in rows && Links(row)
    ensures row.code != "" && ManagerOf(LinksBefore(existing, rows), row.code) == row.managerCode
  {
    var i :| 0 <= i < |rows| && rows[i] == row;
    LinkedHere(Stored(existing), rows, i);
  }

  /** If a row need not fail, neither need those that its chain meets before it leaves the rows. */
  lemma {:induction false} AlongMayPass(existing: seq<Employee>, rows: seq<Row>, first: Row, j: nat, row: Row)
    requires CodesApart(rows) && first in rows && !MustFail(existing, rows, first)
    requires AlongRows(existing, rows, first.code, j) && Links(first)
    requires row in rows && Links(row) && row.code == Follow(LinksBefore(existing, rows), first.code, j)
    ensures !MustFail(existing, rows, row)
    decreases j
  {
    ApartIsDistinct(rows);
    var all := LinksBefore(existing, rows);
    hide LinksBefore;
    hide DistinctCodes;
    if j > 0 {
      assert LinksOn(rows, Follow(all, first.code, j - 1));
      var below :| below in rows && below.code == Follow(all, first.code, j - 1) && Links(below);
      AlongMayPass(existing, rows, first, j - 1, below);
      ManagerIsNext(existing, rows, below);
      FollowOnce(all, first.code, j - 1);
      if MustFail(existing, rows, row) {
        ManagerDooms(existing, rows, below, row);
      }
    }
  }

  /** If a row's chain meets another only after it has left the rows, failing that one first makes it safe. */
  lemma UntiedIsSafe(existing: seq<Employee>, rows: seq<Row>, row: Row, k: nat) returns (codes: set<Id>)
    requires CodesApart(rows) && row in rows && Links(row) && !MustFail(existing, rows, row)
    requires LinksOn(rows, Follow(LinksBefore(existing, rows), row.code, k))
    requires !ReachedAlong(existing, rows, row.code, Follow(LinksBefore(existing, rows), row.code, k))
    ensures row.code in codes && Safe(existing, rows, codes, Follow(LinksBefore(existing, rows), row.code, k))
  {
    ApartIsDistinct(rows);
    var all := LinksBefore(existing, rows);
    var off := LeavesRows(existing, rows, row.code, k);
    codes := set j: nat | j < off :: Follow(all, row.code, j);
    hide LinksBefore;
    hide MustFail;
    hide DistinctCodes;
    assert LinksOn(rows, row.code) && Follow(all, row.code, 0) == row.code;
    assert off > 0;
    var cut := Follow(all, row.code, k);
    forall j: nat | j < off
      ensures Follow(all, row.code, j) != cut
    {
      assert AlongRows(existing, rows, row.code, j);
    }
    forall other | other in rows && Links(other) && other.code in codes
      ensures !MustFail(existing, rows, other)
      ensures LinksOn(rows, other.managerCode) ==> other.managerCode in codes
      ensures exists n: nat :: Follow(all, other.code, n) == cut
    {
      var j: nat :| j < off && Follow(all, row.code, j) == other.code;
      AlongMayPass(existing, rows, row, j, other);
      ManagerIsNext(existing, rows, other);
      FollowOnce(all, row.code, j);
      assert j + 1 == off || other.managerCode in codes;
      FollowAdds(all, row.code, j, k - j);
    }
  }

  lemma LoopsFurtherOn(existing: seq<Employee>, rows: seq<Row>, row: Row, k: nat, other: Row)
    requires Loops(existing, rows, row) && Links(other)
    requires other.code == Follow(LinksBefore(existing, rows), row.code, k)
    ensures Loops(existing, rows, other)
  {
    var all := LinksBefore(existing, rows);
    hide LinksBefore;
    var end := EndsOrRevisits(all, other.code);
    if Follow(all, other.code, end) == "" {
      FollowAdds(all, row.code, k, end);
      EndsSoNeverRevisits(all, row.code, k + end);
    }
  }

  // ---- When the order is no matter ----

  ghost predicate PassesIn(existing: seq<Employee>, rows: seq<Row>, i: nat) {
    var plan := Resolved(existing, rows);
    i < |plan.rows| && Passes(plan.rows[i])
  }

  /** The same rows pass in whatever order they are listed. */
  ghost predicate SameInAnyOrder(existing: seq<Employee>, rows: seq<Row>) {
    forall others: seq<Row>, i: nat, j: nat ::
      multiset(rows) == multiset(others) && i < |rows| && j < |others| && rows[i] == others[j] ==>
        (PassesIn(existing, rows, i) <==> PassesIn(existing, others, j))
  }

  lemma TiedInAnyOrder(existing: seq<Employee>, rows: seq<Row>)
    requires CodesApart(rows) && LoopsAreTied(existing, rows)
    ensures SameInAnyOrder(existing, rows)
  {
    forall others: seq<Row>, i: nat, j: nat |
      multiset(rows) == multiset(others) && i < |rows| && j < |others| && rows[i] == others[j]
      ensures PassesIn(existing, rows, i) <==> PassesIn(existing, others, j)
    {
      SameLinksAnyOrder(existing, rows, others);
      TiedAnyOrder(existing, rows, others);
      MustFailAnyOrder(existing, rows, others, rows[i]);
      hide MustFail;
      hide LinksBefore;
      hide LoopsAreTied;
      hide CodesApart;
      TiedFailures(existing, rows, i);
      TiedFailures(existing, others, j);
    }
  }

  /** Listed first a looping row fails; with the other one listed first it passes. */
  lemma UntiedDecidesByOrder(existing: seq<Employee>, rows: seq<Row>, i: nat, k: nat)
    requires CodesApart(rows) && i < |rows| && Loops(existing, rows, rows[i]) && !MustFail(existing, rows, rows[i])
    requires LinksOn(rows, Follow(LinksBefore(existing, rows), rows[i].code, k))
    requires !ReachedAlong(existing, rows, rows[i].code, Follow(LinksBefore(existing, rows), rows[i].code, k))
    ensures Promoted(rows, i) != [] && Promoted(rows, i)[0] == rows[i] && !PassesIn(existing, Promoted(rows, i), 0)
    ensures exists at: nat, j: nat ::
      at < |rows| && j < |Promoted(rows, at)| && Promoted(rows, at)[j] == rows[i] &&
        PassesIn(existing, Promoted(rows, at), j)
  {
    var row := rows[i];
    var codes := UntiedIsSafe(existing, rows, row, k);
    var cut :| cut in rows && cut.code == Follow(LinksBefore(existing, rows), row.code, k) && Links(cut);
    var at: nat :| at < |rows| && rows[at] == cut;
    LoopsFurtherOn(existing, rows, row, k, cut);
    PromotedIsCut(existing, rows, at, codes);
    PromotedIsCut(existing, rows, i, {});
    PromotedIsReordered(rows, at);
    SameMembers(rows, Promoted(rows, at));
    var j: nat :| j < |Promoted(rows, at)| && Promoted(rows, at)[j] == row;
    assert PassesIn(existing, Promoted(rows, at), j);
  }

  lemma PromotedIsCut(existing: seq<Employee>, rows: seq<Row>, at: nat, codes: set<Id>)
    requires CodesApart(rows) && at < |rows| && Loops(existing, rows, rows[at])
    requires Safe(existing, rows, codes, rows[at].code) || codes == {}
    ensures CutOff(Promoted(rows, at), Resolved(existing, Promoted(rows, at)), codes, rows[at].code)
  {
    var others := Promoted(rows, at);
    PromotedIsReordered(rows, at);
    SameMembers(rows, others);
    SameLinksAnyOrder(existing, rows, others);
    ApartIsDistinct(rows);
    assert rows[at].code != "";
    assert forall code :: LinksOn(rows, code) <==> LinksOn(others, code);
    forall row | row in others
      ensures MustFail(existing, rows, row) <==> MustFail(existing, others, row)
    {
      MustFailAnyOrder(existing, rows, others, row);
    }
    hide MustFail;
    hide LinksBefore;
    hide LinksOn;
    hide CodesApart;
    assert Safe(existing, others, codes, rows[at].code);
    CutFirst(existing, others, codes);
  }

  lemma UntiedIsNotSame(existing: seq<Employee>, rows: seq<Row>, row: Row)
    requires CodesApart(rows) && row in rows && Loops(existing, rows, row) && !MustFail(existing, rows, row)
    requires !Tied(existing, rows, row.code)
    ensures !SameInAnyOrder(existing, rows)
  {
    hide PassesIn;
    hide MustFail;
    hide Loops;
    hide CodesApart;
    hide LinksOn;
    hide ReachedAlong;
    hide LinksBefore;
    hide Promoted;
    var i: nat :| i < |rows| && rows[i] == row;
    var k: nat :| LinksOn(rows, Follow(LinksBefore(existing, rows), row.code, k)) &&
      !ReachedAlong(existing, rows, row.code, Follow(LinksBefore(existing, rows), row.code, k));
    UntiedDecidesByOrder(existing, rows, i, k);
    PromotedIsReordered(rows, i);
    var at: nat, j: nat :| at < |rows| && j < |Promoted(rows, at)| && Promoted(rows, at)[j] == rows[i] &&
      PassesIn(existing, Promoted(rows, at), j);
    PromotedIsReordered(rows, at);
  }

  /** The same rows fail in whatever order they are listed exactly when every loop is tied or fails anyway. */
  lemma OrderIsNoMatter(existing: seq<Employee>, rows: seq<Row>)
    requires CodesApart(rows)
    ensures SameInAnyOrder(existing, rows) <==> LoopsAreTied(existing, rows)
  {
    hide SameInAnyOrder;
    hide MustFail;
    hide Loops;
    hide Tied;
    hide CodesApart;
    if LoopsAreTied(existing, rows) {
      TiedInAnyOrder(existing, rows);
    } else {
      var row :| row in rows && Loops(existing, rows, row) && !MustFail(existing, rows, row) &&
        !Tied(existing, rows, row.code);
      UntiedIsNotSame(existing, rows, row);
    }
  }

  // ---- Imports that cannot store a cycle ----

  /** The rank falls along every stored link and every link a passing row asks for. */
  ghost predicate Descends(existing: seq<Employee>, rows: seq<Row>, rank: Id -> nat) {
    && (forall code: Id ::
         ManagerOf(Stored(existing), code) != "" ==> rank(ManagerOf(Stored(existing), code)) < rank(code))
    && forall i :: 0 <= i < |rows| && Links(rows[i]) ==> rank(rows[i].managerCode) < rank(rows[i].code)
  }

  lemma {:induction false} RankFalls(managers: map<Id, Id>, rank: Id -> nat, id: Id, steps: nat)
    requires forall code: Id :: ManagerOf(managers, code) != "" ==> rank(ManagerOf(managers, code)) < rank(code)
    requires steps > 0 && Follow(managers, id, steps) != ""
    ensures rank(Follow(managers, id, steps)) < rank(id)
    decreases steps
  {
    var next := ManagerOf(managers, id);
    assert Follow(managers, id, steps) == Follow(managers, next, steps - 1);
    if steps > 1 {
      RankFalls(managers, rank, next, steps - 1);
    }
  }

  /**
   * If some ranking falls along all stored and all new links together, the database stays acyclic, whichever of the
   * rows pass in the end.
   */
  lemma RankedImportStaysAcyclic(existing: seq<Employee>, rows: seq<Row>, rank: Id -> nat)
    requires DistinctCodes(rows) && Descends(existing, rows, rank)
    ensures Acyclic(Committed(existing, Resolved(existing, rows).rows))
  {
    ResolvedIsKept(existing, rows);
    var begin, plan := Begin(existing, rows), Resolved(existing, rows);
    hide Settle;
    var committed := Committed(existing, plan.rows);
    forall code: Id | ManagerOf(committed, code) != ""
      ensures rank(ManagerOf(committed, code)) < rank(code)
    {
      if i :| 0 <= i < |plan.rows| && plan.rows[i].code == code && Links(plan.rows[i]) {
        assert SameRow(begin.rows[i], plan.rows[i]);
        LinkedHere(Stored(existing), plan.rows, i);
      } else if ManagerOf(committed, code) != ManagerOf(Stored(existing), code) {
        LinkedElsewhere(Stored(existing), plan.rows, code);
      }
    }
    hide Linked;
    forall id: Id, steps: nat | id != "" && steps > 0
      ensures Follow(committed, id, steps) != id
    {
      if Follow(committed, id, steps) == id {
        RankFalls(committed, rank, id, steps);
      }
    }
  }

  /** So it does if no row gives a manager to somebody who has one already. */
  lemma NewLinksStayAcyclic(existing: seq<Employee>, rows: seq<Row>)
    requires DistinctCodes(rows) && Acyclic(Stored(existing))
    requires forall i :: 0 <= i < |rows| && Links(rows[i]) ==> ManagerOf(Stored(existing), rows[i].code) == ""
    ensures Acyclic(Committed(existing, Resolved(existing, rows).rows))
  {
    FailuresAreJustified(existing, rows);
    hide Settle;
    CommitStaysAcyclicForNewcomers(existing, rows);
  }

  // ---- When exactly the database stays acyclic ----

  /** What is known to fail beforehand, if the loops are tied. */
  ghost predicate FailsAnyway(existing: seq<Employee>, rows: seq<Row>, row: Row) {
    MustFail(existing, rows, row) || Loops(existing, rows, row)
  }

  /** Of `some` rows among `rows` those that do not. */
  ghost function Standing(existing: seq<Employee>, rows: seq<Row>, some: seq<Row>): seq<Row> {
    if some == [] then []
    else
      var before, last := Standing(existing, rows, some[..|some| - 1]), some[|some| - 1];
      if FailsAnyway(existing, rows, last) then before else before + [last]
  }

  lemma {:induction false} StandingLinks(existing: seq<Employee>, rows: seq<Row>, after: seq<Row>, n: nat)
    requires n <= |rows| == |after|
    requires forall i :: 0 <= i < |rows| ==>
      SameRow(rows[i], after[i]) && (Passes(after[i]) <==> !FailsAnyway(existing, rows, rows[i]))
    requires forall i :: 0 <= i < |rows| && Passes(after[i]) ==> Passes(rows[i])
    ensures Linked(Stored(existing), after[..n]) == Linked(Stored(existing), Standing(existing, rows, rows[..n]))
  {
    hide FailsAnyway;
    hide Stored;
    if n > 0 {
      StandingLinks(existing, rows, after, n - 1);
      assert after[..n][..n - 1] == after[..n - 1] && rows[..n][..n - 1] == rows[..n - 1];
      var before, last := Standing(existing, rows, rows[..n - 1]), rows[n - 1];
      assert (before + [last])[..|before|] == before;
      assert SameRow(last, after[n - 1]);
    }
  }

  /**
   * With loops tied, or none, the database stays free of reporting cycles exactly when nobody whose row fails, and who
   * keeps a stored manager, meets somebody twice going up the stored links with those of the standing rows on top.
   */
  lemma TiedCommitStaysAcyclic(existing: seq<Employee>, rows: seq<Row>)
    requires CodesApart(rows) && LoopsAreTied(existing, rows) && Acyclic(Stored(existing))
    ensures Acyclic(Committed(existing, Resolved(existing, rows).rows)) <==>
      forall row :: row in rows && Links(row) && FailsAnyway(existing, rows, row) ==>
        NeverRevisits(Linked(Stored(existing), Standing(existing, rows, rows)), row.code)
  {
    ApartIsDistinct(rows);
    CommitStaysAcyclic(existing, rows);
    ResolvedIsKept(existing, rows);
    var begin, plan := Begin(existing, rows), Resolved(existing, rows);
    hide Resolved;
    hide NeverRevisits;
    hide ProblemOf;
    hide LinksExplained;
    forall i: nat | i < |rows|
      ensures SameRow(rows[i], plan.rows[i]) && (Passes(plan.rows[i]) ==> Passes(rows[i]))
      ensures Passes(plan.rows[i]) <==> !FailsAnyway(existing, rows, rows[i])
      ensures FailedHere(begin, plan, i) <==> Links(rows[i]) && FailsAnyway(existing, rows, rows[i])
    {
      TiedFailures(existing, rows, i);
      assert SameRow(begin.rows[i], plan.rows[i]);
    }
    StandingLinks(existing, rows, plan.rows, |rows|);
    assert plan.rows[..|rows|] == plan.rows && rows[..|rows|] == rows;
  }
}
