/** The reporting graph of the employees: changes that keep it free of cycles, and searching it downwards. */
module Reporting {
  import opened ManagerChains
  import opened Wrappers

  // ---- Changing a manager ----

  datatype ReportingError = OwnManager | ReportingLoop | ManagerNotFound | EmployeeNotFound

  /** Walks up from `managerId`, which must not meet `id`. */
  method AssertNoReportingLoop(managers: map<Id, Id>, id: Id, managerId: Id) returns (r: Result<(), ReportingError>)
    requires id != "" && managerId != ""
    ensures r == Err(ReportingLoop) <==> ReportsUpTo(managers, managerId, id)
    ensures r == Err(ManagerNotFound) <==> !ReportsUpTo(managers, managerId, id) && managerId !in managers
    ensures r.Err? ==> r.error in {ReportingLoop, ManagerNotFound}
  {
    var seen: set<Id> := {};
    var cur := managerId;
    ghost var steps := 0;
    while cur != "" && cur !in seen
      invariant cur == Follow(managers, managerId, steps)
      invariant managerId == cur || managerId in seen
      invariant cur in managers.Values + {managerId, ""}
      invariant id !in seen && "" !in seen && seen <= managers.Keys + managers.Values + {managerId}
      invariant forall x :: x in seen ==> ManagerOf(managers, x) == cur || ManagerOf(managers, x) in seen
      invariant seen != {} ==> managerId in managers
      decreases managers.Keys + managers.Values + {managerId} - seen
    {
      if cur == id {
        return Err(ReportingLoop);
      }
      FollowOnce(managers, managerId, steps);
      if cur !in managers && cur == managerId {
        NoChain(managers, managerId, id);
        return Err(ManagerNotFound);
      }
      seen := seen + {cur};
      cur := ManagerOf(managers, cur);
      steps := steps + 1;
    }
    ClosedChain(managers, seen, managerId, id);
    return Ok(());
  }

  lemma NoChain(managers: map<Id, Id>, start: Id, id: Id)
    requires start !in managers && id != start
    ensures !ReportsUpTo(managers, start, id)
  {
    ClosedChain(managers, {start}, start, id);
  }

  /** A chain cannot leave a set that holds everyone's manager. */
  lemma ClosedChain(managers: map<Id, Id>, inside: set<Id>, start: Id, id: Id)
    requires start in inside && id !in inside
    requires forall x :: x in inside ==> ManagerOf(managers, x) == "" || ManagerOf(managers, x) in inside
    ensures !ReportsUpTo(managers, start, id)
  {
    forall steps: nat
      ensures id == "" || Follow(managers, start, steps) != id
    {
      StaysInside(managers, inside, start, steps);
    }
  }

  lemma {:induction false} StaysInside(managers: map<Id, Id>, inside: set<Id>, start: Id, steps: nat)
    requires start in inside + {""}
    requires forall x :: x in inside ==> ManagerOf(managers, x) == "" || ManagerOf(managers, x) in inside
    ensures Follow(managers, start, steps) in inside + {""}
    decreases steps
  {
    if start != "" && steps > 0 {
      StaysInside(managers, inside, ManagerOf(managers, start), steps - 1);
    }
  }

  /** Nobody is above themselves, and every manager is an employee. */
  ghost predicate Sound(managers: map<Id, Id>) {
    && Acyclic(managers)
    && "" !in managers
    && forall id :: id in managers ==> managers[id] == "" || managers[id] in managers
  }

  lemma {:induction false} UpToNewEdge(managers: map<Id, Id>, id: Id, managerId: Id, start: Id, steps: nat)
    requires id != "" && start != "" && Follow(managers[id := managerId], start, steps) == id
    ensures ReportsUpTo(managers, start, id)
    decreases steps
  {
    if start == id {
      assert Follow(managers, start, 0) == id;
    } else {
      var next := ManagerOf(managers, start);
      UpToNewEdge(managers, id, managerId, next, steps - 1);
      var k: nat :| Follow(managers, next, k) == id;
      assert Follow(managers, start, k + 1) == id;
    }
  }

  lemma {:induction false} UpWithoutEdge(managers: map<Id, Id>, id: Id, managerId: Id, start: Id, steps: nat)
    requires id != "" && start != "" && Follow(managers, start, steps) == id
    ensures ReportsUpTo(managers[id := managerId], start, id)
    decreases steps
  {
    var after := managers[id := managerId];
    if start == id {
      assert Follow(after, start, 0) == id;
    } else {
      var next := ManagerOf(managers, start);
      UpWithoutEdge(managers, id, managerId, next, steps - 1);
      var k: nat :| Follow(after, next, k) == id;
      assert Follow(after, start, k + 1) == id;
    }
  }

  /** Giving `id` a manager keeps the graph acyclic exactly when that manager does not report up to `id`. */
  lemma ChangeStaysAcyclic(managers: map<Id, Id>, id: Id, managerId: Id)
    requires Acyclic(managers) && id != ""
    ensures Acyclic(managers[id := managerId]) <==> !ReportsUpTo(managers, managerId, id)
  {
    var after := managers[id := managerId];
    if ReportsUpTo(managers, managerId, id) {
      var k: nat :| Follow(managers, managerId, k) == id;
      if managerId == "" {
        assert false;
      }
      UpWithoutEdge(managers, id, managerId, managerId, k);
      var j: nat :| Follow(after, managerId, j) == id;
      assert Follow(after, id, j + 1) == Follow(after, managerId, j);
    } else if !Acyclic(after) {
      var x: Id, steps: nat :| x != "" && steps > 0 && Follow(after, x, steps) == x;
      var at := NewLoopUsesNewEdge(managers, after, x, steps);
      assert Follow(after, x, at) == id;
      LoopFromAnywhere(after, x, steps, at);
      assert Follow(after, id, steps) == Follow(after, managerId, steps - 1) == id;
      LoopNeverEnds(after, id, steps, 1);
      assert Follow(after, id, 1) == Follow(after, managerId, 0);
      UpToNewEdge(managers, id, managerId, managerId, steps - 1);
    }
  }

  class Directory {
    /** Everybody's manager, empty for none. */
    var managers: map<Id, Id>

    constructor ()
      ensures managers == map[] && Sound(managers)
    {
      managers := map[];
      new;
      forall id: Id, steps: nat | id != "" && steps > 0
        ensures Follow(managers, id, steps) != id
      {
        assert Follow(managers, id, steps) == Follow(managers, "", steps - 1);
      }
    }

    /** Setting a manager, or clearing it with an empty one. */
    method SetManager(id: Id, managerId: Id) returns (r: Result<(), ReportingError>)
      requires id != ""
      modifies this
      ensures r.Ok? <==> Accepted(old(managers), id, managerId)
      ensures managers == if r.Ok? then old(managers)[id := managerId] else old(managers)
      ensures old(Sound(managers)) ==> Sound(managers)
    {
      if id !in managers {
        return Err(EmployeeNotFound);
      }
      if managerId == id {
        return Err(OwnManager);
      }
      if managerId != "" {
        r := AssertNoReportingLoop(managers, id, managerId);
        if r.Err? {
          return;
        }
      }
      if Sound(managers) {
        ChangeStaysAcyclic(managers, id, managerId);
      }
      managers := managers[id := managerId];
      return Ok(());
    }

    /** A new employee has an identifier of its own, and the database wants the manager to exist. */
    method Hire(id: Id, managerId: Id) returns (r: Result<(), ReportingError>)
      requires id != "" && id !in managers
      modifies this
      ensures r.Ok? <==> managerId == "" || managerId in old(managers)
      ensures managers == if r.Ok? then old(managers)[id := managerId] else old(managers)
      ensures old(Sound(managers)) ==> Sound(managers)
    {
      if managerId != "" && managerId !in managers {
        return Err(ManagerNotFound);
      }
      if Sound(managers) {
        HireStaysAcyclic(managers, id, managerId);
      }
      managers := managers[id := managerId];
      return Ok(());
    }
  }

  ghost predicate Accepted(managers: map<Id, Id>, id: Id, managerId: Id) {
    && id in managers
    && managerId != id
    && (managerId == "" || (managerId in managers && !ReportsUpTo(managers, managerId, id)))
  }

  lemma HireStaysAcyclic(managers: map<Id, Id>, id: Id, managerId: Id)
    requires Sound(managers) && id != "" && id !in managers && (managerId == "" || managerId in managers)
    ensures Acyclic(managers[id := managerId])
  {
    if managerId == "" {
      assert Follow(managers, "", 0) == "";
      assert !ReportsUpTo(managers, managerId, id) by {
        forall k: nat
          ensures Follow(managers, managerId, k) == ""
        {
        }
      }
    } else {
      ClosedChain(managers, managers.Keys, managerId, id);
    }
    ChangeStaysAcyclic(managers, id, managerId);
  }

  /** A change is accepted exactly when it names existing employees and leaves the graph acyclic. */
  lemma AcceptedIsExact(managers: map<Id, Id>, id: Id, managerId: Id)
    requires Sound(managers) && id != ""
    ensures Accepted(managers, id, managerId) <==>
      id in managers && (managerId == "" || managerId in managers) && Acyclic(managers[id := managerId])
  {
    ChangeStaysAcyclic(managers, id, managerId);
    if managerId == id {
      assert Follow(managers, managerId, 0) == id;
    }
    assert forall k: nat :: Follow(managers, "", k) == "";
  }

  // ---- Any run of changes ----

  datatype Change = Hire(id: Id, managerId: Id) | SetManager(id: Id, managerId: Id)

  /** What `Directory` makes of one change; a refused change changes nothing. */
  ghost function Apply(managers: map<Id, Id>, change: Change): map<Id, Id> {
    match change
    case Hire(id, managerId) =>
      if id != "" && id !in managers && (managerId == "" || managerId in managers) then managers[id := managerId]
        else managers
    case SetManager(id, managerId) =>
      if id != "" && Accepted(managers, id, managerId) then managers[id := managerId] else managers
  }

  ghost function ApplyAll(managers: map<Id, Id>, changes: seq<Change>): map<Id, Id>
    decreases |changes|
  {
    if changes == [] then managers else ApplyAll(Apply(managers, changes[0]), changes[1..])
  }

  /** However many managers change, nobody ever ends up above themselves. */
  lemma {:induction false} RunStaysAcyclic(managers: map<Id, Id>, changes: seq<Change>)
    requires Sound(managers)
    ensures Sound(ApplyAll(managers, changes))
    decreases |changes|
  {
    if changes != [] {
      var change := changes[0];
      if Apply(managers, change) != managers {
        if change.Hire? {
          HireStaysAcyclic(managers, change.id, change.managerId);
        } else {
          AcceptedIsExact(managers, change.id, change.managerId);
        }
      }
      RunStaysAcyclic(Apply(managers, change), changes[1..]);
    }
  }

  // ---- Everybody below a manager ----

  datatype Employee = Employee(id: Id, managerId: Id)

  ghost predicate DirectReport(employees: seq<Employee>, boss: Id, x: Id) {
    boss != "" && Employee(x, boss) in employees
  }

  /** `x` is `edges` reporting edges below `boss`; the identifiers need not be unique. */
  ghost predicate EdgesBelow(employees: seq<Employee>, boss: Id, x: Id, edges: nat)
    decreases edges
  {
    if edges == 0 then x == boss
    else exists y :: EdgesBelow(employees, boss, y, edges - 1) && DirectReport(employees, y, x)
  }

  ghost predicate Below(employees: seq<Employee>, boss: Id, x: Id) {
    exists edges: nat :: edges > 0 && EdgesBelow(employees, boss, x, edges)
  }

  function ReportsOf(employees: seq<Employee>, boss: Id): seq<Id> {
    if employees == [] then []
    else
      var e := employees[|employees| - 1];
      var before := ReportsOf(employees[..|employees| - 1], boss);
      if e.managerId == boss then before + [e.id] else before
  }

  lemma {:induction false} ReportsOfHolds(employees: seq<Employee>, boss: Id, x: Id)
    ensures x in ReportsOf(employees, boss) <==> Employee(x, boss) in employees
  {
    if employees != [] {
      var before, e := employees[..|employees| - 1], employees[|employees| - 1];
      ReportsOfHolds(before, boss, x);
      assert employees == before + [e];
    }
  }

  function Listed(directReportsOf: map<Id, seq<Id>>, boss: Id): seq<Id> {
    if boss in directReportsOf then directReportsOf[boss] else []
  }

  /** The map lists exactly the direct reports, in the order of the employees. */
  ghost predicate IsIndexOf(directReportsOf: map<Id, seq<Id>>, employees: seq<Employee>) {
    forall boss :: Listed(directReportsOf, boss) == if boss == "" then [] else ReportsOf(employees, boss)
  }

  method IndexReports(employees: seq<Employee>) returns (directReportsOf: map<Id, seq<Id>>)
    ensures IsIndexOf(directReportsOf, employees)
  {
    directReportsOf := map[];
    for i := 0 to |employees|
      invariant IsIndexOf(directReportsOf, employees[..i])
    {
      var e := employees[i];
      ghost var before := directReportsOf;
      if e.managerId != "" {
        directReportsOf := directReportsOf[e.managerId := Listed(directReportsOf, e.managerId) + [e.id]];
      }
      forall boss
        ensures Listed(directReportsOf, boss) == if boss == "" then [] else ReportsOf(employees[..i + 1], boss)
      {
        assert employees[..i + 1][..i] == employees[..i];
        assert Listed(before, boss) == if boss == "" then [] else ReportsOf(employees[..i], boss);
        assert ReportsOf(employees[..i + 1], boss) ==
          if e.managerId == boss then ReportsOf(employees[..i], boss) + [e.id] else ReportsOf(employees[..i], boss);
      }
    }
    assert employees[..|employees|] == employees;
  }

  lemma ListedAreDirect(directReportsOf: map<Id, seq<Id>>, employees: seq<Employee>, boss: Id)
    requires IsIndexOf(directReportsOf, employees)
    ensures forall x :: x in Listed(directReportsOf, boss) <==> DirectReport(employees, boss, x)
  {
    forall x
      ensures x in Listed(directReportsOf, boss) <==> DirectReport(employees, boss, x)
    {
      ReportsOfHolds(employees, boss, x);
    }
  }

  ghost predicate ReportsAmong(employees: seq<Employee>, boss: Id, found: set<Id>) {
    forall x :: DirectReport(employees, boss, x) ==> x in found
  }

  /** Breadth-first search: the result is everyone one or more reporting edges below the manager, on any graph. */
  method RecursiveReportIds(employees: seq<Employee>, managerId: Id) returns (result: set<Id>)
    ensures forall x :: x in result <==> Below(employees, managerId, x)
  {
    hide Below;
    hide DirectReport;
    var directReportsOf := IndexReports(employees);
    hide IsIndexOf;
    ghost var everyone := set e | e in employees :: e.id;
    result := {};
    var queue := Listed(directReportsOf, managerId);
    ListedAreDirect(directReportsOf, employees, managerId);
    DirectIsBelow(employees, managerId);
    while queue != []
      invariant forall x :: x in result || x in queue ==> x in everyone && Below(employees, managerId, x)
      invariant ReportsAmong(employees, managerId, result + Ids(queue))
      invariant forall y :: y in result ==> ReportsAmong(employees, y, result + Ids(queue))
      decreases everyone - result, |queue|
    {
      ghost var was := result + Ids(queue);
      var id := queue[0];
      assert queue == [id] + queue[1..];
      queue := queue[1..];
      if id !in result {
        result := result + {id};
        BelowGoesOn(employees, managerId, id);
        ListedAreDirect(directReportsOf, employees, id);
        queue := queue + Listed(directReportsOf, id);
      }
      assert was <= result + Ids(queue);
    }
    assert result + Ids(queue) == result;
    forall x | Below(employees, managerId, x)
      ensures x in result
    {
      ClosedHoldsAllBelow(employees, managerId, result, x);
    }
  }

  function Ids(queue: seq<Id>): set<Id> {
    set x | x in queue
  }

  lemma DirectIsBelow(employees: seq<Employee>, boss: Id)
    ensures forall x ::
      DirectReport(employees, boss, x) ==> Below(employees, boss, x) && x in (set e | e in employees :: e.id)
  {
    forall x | DirectReport(employees, boss, x)
      ensures Below(employees, boss, x) && x in (set e | e in employees :: e.id)
    {
      assert EdgesBelow(employees, boss, boss, 0);
      assert EdgesBelow(employees, boss, x, 1);
      assert Employee(x, boss) in employees;
    }
  }

  lemma BelowGoesOn(employees: seq<Employee>, boss: Id, y: Id)
    requires Below(employees, boss, y)
    ensures forall x ::
      DirectReport(employees, y, x) ==> Below(employees, boss, x) && x in (set e | e in employees :: e.id)
  {
    var edges: nat :| edges > 0 && EdgesBelow(employees, boss, y, edges);
    forall x | DirectReport(employees, y, x)
      ensures Below(employees, boss, x) && x in (set e | e in employees :: e.id)
    {
      assert EdgesBelow(employees, boss, x, edges + 1);
      assert Employee(x, y) in employees;
    }
  }

  lemma {:induction false} AllEdgesInside(employees: seq<Employee>, boss: Id, found: set<Id>, x: Id, edges: nat)
    requires edges > 0 && EdgesBelow(employees, boss, x, edges)
    requires ReportsAmong(employees, boss, found) && forall y :: y in found ==> ReportsAmong(employees, y, found)
    ensures x in found
    decreases edges
  {
    var y :| EdgesBelow(employees, boss, y, edges - 1) && DirectReport(employees, y, x);
    if edges > 1 {
      AllEdgesInside(employees, boss, found, y, edges - 1);
    }
  }

  lemma ClosedHoldsAllBelow(employees: seq<Employee>, boss: Id, found: set<Id>, x: Id)
    requires Below(employees, boss, x)
    requires ReportsAmong(employees, boss, found) && forall y :: y in found ==> ReportsAmong(employees, y, found)
    ensures x in found
  {
    var edges: nat :| edges > 0 && EdgesBelow(employees, boss, x, edges);
    AllEdgesInside(employees, boss, found, x, edges);
  }
}
