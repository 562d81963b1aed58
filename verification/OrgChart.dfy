/** The organisation chart: one tree per employee without a manager, or one below the viewer, with report counts. */
module OrgChart {
  import opened ManagerChains
  import opened Reporting
  import opened Sequences

  datatype Node = Node(id: Id, directReports: seq<Node>, directReportCount: nat, totalReportCount: nat)

  ghost predicate Distinct(ids: seq<Id>) {
    forall i, j :: 0 <= i < j < |ids| ==> ids[i] != ids[j]
  }

  function Members(node: Node): set<Id> {
    {node.id} + MembersOf(node.directReports)
  }

  function MembersOf(nodes: seq<Node>): set<Id> {
    if nodes == [] then {} else MembersOf(nodes[..|nodes| - 1]) + Members(nodes[|nodes| - 1])
  }

  /**
   * Each member occurs once, reports to the node above it, and is counted by every node above it; and no report of a
   * member is left out, except for `start`, where the walk began.
   */
  ghost predicate Charted(managers: map<Id, Id>, start: Id, node: Node)
    decreases node
  {
    && node.id in managers
    && node.id !in MembersOf(node.directReports)
    && node.directReportCount == |node.directReports|
    && node.totalReportCount == |MembersOf(node.directReports)|
    && ChartedBelow(managers, start, node.id, node.directReports)
    && NobodyLeftOut(managers, start, Members(node))
  }

  ghost predicate ChartedBelow(managers: map<Id, Id>, start: Id, boss: Id, nodes: seq<Node>)
    decreases nodes
  {
    nodes == [] ||
    var rest, last := nodes[..|nodes| - 1], nodes[|nodes| - 1];
    && ChartedBelow(managers, start, boss, rest)
    && Charted(managers, start, last)
    && managers[last.id] == boss
    && Members(last) !! MembersOf(rest)
  }

  ghost predicate NobodyLeftOut(managers: map<Id, Id>, start: Id, members: set<Id>) {
    forall x :: x in managers && managers[x] in members ==> x in members || x == start
  }

  /** Whoever was visited has a visited manager, up to where the walk began. */
  ghost predicate UpClosed(managers: map<Id, Id>, start: Id, visited: set<Id>) {
    forall x :: x in visited ==> x in managers && (x == start || managers[x] == "" || managers[x] in visited)
  }

  lemma {:induction false} MembersLeadUp(managers: map<Id, Id>, start: Id, node: Node)
    requires Charted(managers, start, node)
    ensures forall x :: x in Members(node) ==> x in managers && (x == node.id || managers[x] in Members(node))
    decreases node
  {
    MembersOfLeadUp(managers, start, node.id, node.directReports);
  }

  lemma {:induction false} MembersOfLeadUp(managers: map<Id, Id>, start: Id, boss: Id, nodes: seq<Node>)
    requires ChartedBelow(managers, start, boss, nodes)
    ensures forall x ::
      x in MembersOf(nodes) ==> x in managers && (managers[x] == boss || managers[x] in MembersOf(nodes))
    decreases nodes
  {
    if nodes != [] {
      MembersOfLeadUp(managers, start, boss, nodes[..|nodes| - 1]);
      MembersLeadUp(managers, start, nodes[|nodes| - 1]);
    }
  }

  ghost predicate IdsAre(nodes: seq<Node>, ids: seq<Id>) {
    |nodes| == |ids| && forall k :: 0 <= k < |nodes| ==> nodes[k].id == ids[k]
  }

  lemma OneMoreId(nodes: seq<Node>, ids: seq<Id>, n: nat, node: Node)
    requires n < |ids| && IdsAre(nodes, ids[..n]) && node.id == ids[n]
    ensures IdsAre(nodes + [node], ids[..n + 1]) && |nodes| == n
  {
  }

  ghost predicate AllIn(ids: seq<Id>, n: nat, members: set<Id>) {
    forall k :: 0 <= k < |ids| && k < n ==> ids[k] in members
  }

  lemma OneMoreIn(ids: seq<Id>, n: nat, before: set<Id>, after: set<Id>)
    requires AllIn(ids, n, before) && before <= after && n < |ids| && ids[n] in after
    ensures AllIn(ids, n + 1, after)
  {
  }

  /** None of `ids` from `n` on was visited. */
  ghost predicate NoneIn(ids: seq<Id>, n: nat, visited: set<Id>) {
    forall k :: n <= k < |ids| ==> ids[k] !in visited
  }

  ghost predicate ReportTo(managers: map<Id, Id>, boss: Id, ids: seq<Id>) {
    Distinct(ids) && forall x :: x in ids ==> x in managers && managers[x] == boss
  }

  /** The manager was visited, or there is none. */
  ghost predicate ManagerIsDone(managers: map<Id, Id>, boss: Id, visited: set<Id>) {
    "" !in managers && (boss in visited || boss == "")
  }

  /** The walk may go on with `id`. */
  ghost predicate MayVisit(managers: map<Id, Id>, start: Id, id: Id, visited: set<Id>) {
    id in managers && id !in visited && (id == start || ManagerIsDone(managers, managers[id], visited))
  }

  lemma NextUnvisited(managers: map<Id, Id>, start: Id, boss: Id, ids: seq<Id>, n: nat, visited: set<Id>)
    requires ReportTo(managers, boss, ids) && NoneIn(ids, n, visited) && n < |ids|
    requires ManagerIsDone(managers, boss, visited)
    ensures MayVisit(managers, start, ids[n], visited) && ids[n] in managers && managers[ids[n]] == boss
  {
    assert ids[n] in ids;
  }

  /** `after` is `before` and, apart from it, `added`. */
  ghost predicate Apart(before: set<Id>, added: set<Id>, after: set<Id>) {
    added !! before && after == before + added
  }

  lemma ApartStep(first: set<Id>, added: set<Id>, before: set<Id>, more: set<Id>, after: set<Id>)
    requires Apart(first, added, before) && Apart(before, more, after)
    ensures forall managers, boss :: ManagerIsDone(managers, boss, before) ==> ManagerIsDone(managers, boss, after)
    ensures Apart(first, added + more, after) && more !! added && before <= after && added <= added + more
  {
  }

  lemma NoTreesYet(managers: map<Id, Id>, start: Id, boss: Id, reports: seq<Id>, visited: set<Id>)
    ensures MembersOf([]) == {} && ChartedBelow(managers, start, boss, []) && AllIn(reports, 0, {})
    ensures NobodyLeftOut(managers, start, {}) && Apart(visited, {}, visited) && IdsAre([], reports[..0])
  {
  }

  /** A report's tree holds none of the other reports of the same manager. */
  lemma OthersStayUnvisited(managers: map<Id, Id>, start: Id, boss: Id, reports: seq<Id>, n: nat, visited: set<Id>,
      report: Node, after: set<Id>)
    requires ReportTo(managers, boss, reports) && NoneIn(reports, n, visited) && n < |reports|
    requires report.id == reports[n]
    requires ManagerIsDone(managers, boss, visited) && Apart(visited, Members(report), after)
    requires Charted(managers, start, report)
    ensures NoneIn(reports, n + 1, after)
  {
    MembersLeadUp(managers, start, report);
    forall k | n + 1 <= k < |reports|
      ensures reports[k] !in after
    {
      assert reports[k] in reports;
    }
  }

  function Unvisited(ids: seq<Id>, visited: set<Id>): (kept: seq<Id>)
    ensures forall x :: x in kept <==> x in ids && x !in visited
    ensures Distinct(ids) ==> Distinct(kept)
  {
    if ids == [] then []
    else
      var kept := Unvisited(ids[..|ids| - 1], visited);
      if ids[|ids| - 1] in visited then kept else kept + [ids[|ids| - 1]]
  }

  /** One more report's tree beside the ones built so far. */
  lemma AddReport(managers: map<Id, Id>, start: Id, boss: Id, nodes: seq<Node>, report: Node)
    requires ChartedBelow(managers, start, boss, nodes) && Charted(managers, start, report)
    requires managers[report.id] == boss
    requires Members(report) !! MembersOf(nodes)
    requires NobodyLeftOut(managers, start, MembersOf(nodes))
    ensures var all := nodes + [report];
      && ChartedBelow(managers, start, boss, all)
      && MembersOf(all) == MembersOf(nodes) + Members(report)
      && report.id in MembersOf(all)
      && |MembersOf(all)| == |MembersOf(nodes)| + 1 + report.totalReportCount
      && NobodyLeftOut(managers, start, MembersOf(all))
  {
    var all := nodes + [report];
    assert all[..|all| - 1] == nodes && all[|all| - 1] == report;
    assert |Members(report)| == 1 + report.totalReportCount;
    assert |MembersOf(nodes) + Members(report)| == |MembersOf(nodes)| + |Members(report)|;
  }

  /** Marking `id` leaves its unvisited reports to be walked. */
  lemma Enter(managers: map<Id, Id>, start: Id, id: Id, visited: set<Id>, listed: seq<Id>, reports: seq<Id>)
    requires "" !in managers && MayVisit(managers, start, id, visited) && UpClosed(managers, start, visited)
    requires ReportTo(managers, id, listed) && reports == Unvisited(listed, visited + {id})
    ensures ManagerIsDone(managers, id, visited + {id}) && UpClosed(managers, start, visited + {id})
    ensures ReportTo(managers, id, reports) && NoneIn(reports, 0, visited + {id})
    ensures managers.Keys - (visited + {id}) < managers.Keys - visited
  {
    assert id in managers.Keys - visited;
  }

  /** Whoever reports to `id` is among the reports, was visited before `id`, which only `start` can be, or is `id`. */
  ghost predicate ReportsAreAll(managers: map<Id, Id>, start: Id, id: Id, reports: seq<Id>) {
    id != "" && id in managers &&
      forall x :: x in managers && managers[x] == id ==> x in reports || x == start || x == id
  }

  lemma CloseNodeLater(managers: map<Id, Id>, start: Id, id: Id, visited: set<Id>, listed: seq<Id>, reports: seq<Id>)
    requires "" !in managers && MayVisit(managers, start, id, visited) && UpClosed(managers, start, visited)
    requires forall x :: x in managers && managers[x] == id ==> x in listed
    requires reports == Unvisited(listed, visited + {id})
    ensures ReportsAreAll(managers, start, id, reports)
  {
  }

  /** With the trees of its reports walked, the tree of a node is. */
  lemma Leave(managers: map<Id, Id>, start: Id, before: set<Id>, entered: set<Id>, after: set<Id>, reports: seq<Id>,
      node: Node)
    requires node.id !in before && entered == before + {node.id} && ReportsAreAll(managers, start, node.id, reports)
    requires Apart(entered, MembersOf(node.directReports), after)
    requires node.directReportCount == |node.directReports| && node.totalReportCount == |MembersOf(node.directReports)|
    requires ChartedBelow(managers, start, node.id, node.directReports)
    requires AllIn(reports, |reports|, MembersOf(node.directReports))
    requires NobodyLeftOut(managers, start, MembersOf(node.directReports))
    ensures Charted(managers, start, node) && Apart(before, Members(node), after)
  {
    var members := MembersOf(node.directReports);
    forall x | x in managers && managers[x] in {node.id} + members
      ensures x in {node.id} + members || x == start
    {
      if managers[x] == node.id && x in reports {
        var k :| 0 <= k < |reports| && reports[k] == x;
      }
    }
  }

  /** `directReports` is `managers` the other way round. */
  ghost predicate Indexed(managers: map<Id, Id>, directReports: map<Id, seq<Id>>) {
    && "" !in managers
    && directReports.Keys == managers.Keys
    && forall id :: id in managers ==>
      ReportTo(managers, id, directReports[id]) &&
        forall x :: x in managers && managers[x] == id ==> x in directReports[id]
  }

  class Chart {
    /** The manager of each employee on the chart, empty for none on it. */
    const managers: map<Id, Id>
    const directReports: map<Id, seq<Id>>
    var visited: set<Id>

    constructor (managers: map<Id, Id>, directReports: map<Id, seq<Id>>)
      ensures this.managers == managers && this.directReports == directReports && visited == {}
    {
      this.managers := managers;
      this.directReports := directReports;
      visited := {};
    }

    /** Builds the tree below `id` in post-order; a report visited before is pruned. */
    method CountReports(id: Id, ghost start: Id) returns (node: Node)
      requires Indexed(managers, directReports) && MayVisit(managers, start, id, visited)
      requires UpClosed(managers, start, visited)
      modifies this
      ensures node.id == id && Charted(managers, start, node)
      ensures Apart(old(visited), Members(node), visited)
      ensures UpClosed(managers, start, visited)
      decreases managers.Keys - visited, 0
    {
      var reports := Unvisited(directReports[id], visited + {id});
      Enter(managers, start, id, visited, directReports[id], reports);
      CloseNodeLater(managers, start, id, visited, directReports[id], reports);
      hide *;
      visited := visited + {id};
      var nodes, total := CountEach(id, reports, start);
      node := Node(id, nodes, |nodes|, total);
      Leave(managers, start, old(visited), old(visited) + {id}, visited, reports, node);
    }

    /** The trees of the unvisited reports of `id`, and how many employees they hold. */
    method CountEach(id: Id, reports: seq<Id>, ghost start: Id) returns (nodes: seq<Node>, total: nat)
      requires Indexed(managers, directReports) && ManagerIsDone(managers, id, visited)
      requires UpClosed(managers, start, visited)
      requires ReportTo(managers, id, reports) && NoneIn(reports, 0, visited)
      modifies this
      ensures total == |MembersOf(nodes)|
      ensures IdsAre(nodes, reports)
      ensures Apart(old(visited), MembersOf(nodes), visited)
      ensures ChartedBelow(managers, start, id, nodes)
      ensures UpClosed(managers, start, visited)
      ensures AllIn(reports, |reports|, MembersOf(nodes))
      ensures NobodyLeftOut(managers, start, MembersOf(nodes))
      decreases managers.Keys - visited, 1
    {
      hide *;
      nodes, total := [], 0;
      NoTreesYet(managers, start, id, reports, visited);
      for i := 0 to |reports|
        invariant total == |MembersOf(nodes)| && IdsAre(nodes, reports[..i])
        invariant ManagerIsDone(managers, id, visited)
        invariant old(visited) <= visited && Apart(old(visited), MembersOf(nodes), visited)
        invariant ChartedBelow(managers, start, id, nodes)
        invariant UpClosed(managers, start, visited)
        invariant AllIn(reports, i, MembersOf(nodes)) && NoneIn(reports, i, visited)
        invariant NobodyLeftOut(managers, start, MembersOf(nodes))
      {
        NextUnvisited(managers, start, id, reports, i, visited);
        ghost var before := visited;
        var report := CountReports(reports[i], start);
        OthersStayUnvisited(managers, start, id, reports, i, before, report, visited);
        ApartStep(old(visited), MembersOf(nodes), before, Members(report), visited);
        AddReport(managers, start, id, nodes, report);
        OneMoreIn(reports, i, MembersOf(nodes), MembersOf(nodes + [report]));
        OneMoreId(nodes, reports, i, report);
        nodes := nodes + [report];
        total := total + 1 + report.totalReportCount;
      }
      WholeSequence(reports);
    }
  }

  // ---- From the employees to the chart ----

  ghost predicate UniqueIds(employees: seq<Employee>) {
    && (forall i :: 0 <= i < |employees| ==> employees[i].id != "")
    && forall i, j :: 0 <= i < j < |employees| ==> employees[i].id != employees[j].id
  }

  function IdsOf(employees: seq<Employee>): set<Id> {
    set e | e in employees :: e.id
  }

  /** The employee's manager if that one is on the chart. */
  function OnChart(employees: seq<Employee>, managerId: Id): Id {
    if managerId in IdsOf(employees) then managerId else ""
  }

  /** `managers` says of every employee who of the others manages them. */
  ghost predicate LinksOf(employees: seq<Employee>, managers: map<Id, Id>) {
    && managers.Keys == IdsOf(employees)
    && forall e :: e in employees ==> managers[e.id] == OnChart(employees, e.managerId)
  }

  ghost function Links(employees: seq<Employee>): (managers: map<Id, Id>)
    requires UniqueIds(employees)
    ensures LinksOf(employees, managers)
  {
    map id | id in IdsOf(employees) :: OnChart(employees, EmployeeOf(employees, id).managerId)
  }

  ghost function EmployeeOf(employees: seq<Employee>, id: Id): (e: Employee)
    requires id in IdsOf(employees)
    ensures e in employees && e.id == id
  {
    var e :| e in employees && e.id == id;
    e
  }

  lemma LinksAreUnique(employees: seq<Employee>, managers: map<Id, Id>)
    requires UniqueIds(employees) && LinksOf(employees, managers)
    ensures managers == Links(employees)
  {
    forall id | id in managers
      ensures managers[id] == Links(employees)[id]
    {
      assert managers[id] == OnChart(employees, EmployeeOf(employees, id).managerId);
    }
  }

  /** Those of `some` whose manager on the chart is `boss`, in order. */
  function Under(employees: seq<Employee>, some: seq<Employee>, boss: Id): seq<Id> {
    if some == [] then []
    else
      var before, e := Under(employees, some[..|some| - 1], boss), some[|some| - 1];
      if OnChart(employees, e.managerId) == boss then before + [e.id] else before
  }

  lemma {:induction false} UnderHolds(employees: seq<Employee>, some: seq<Employee>, boss: Id)
    requires UniqueIds(some)
    ensures forall x :: x in Under(employees, some, boss) <==>
      exists e :: e in some && e.id == x && OnChart(employees, e.managerId) == boss
    ensures Distinct(Under(employees, some, boss))
  {
    if some != [] {
      var rest, e := some[..|some| - 1], some[|some| - 1];
      UnderHolds(employees, rest, boss);
      assert some == rest + [e];
      forall other | other in rest
        ensures other.id != e.id
      {
        var k :| 0 <= k < |rest| && rest[k] == other;
        assert some[k] == other;
      }
      assert e.id !in Under(employees, rest, boss);
    }
  }

  lemma UnderReportTo(employees: seq<Employee>, managers: map<Id, Id>, boss: Id)
    requires UniqueIds(employees) && LinksOf(employees, managers)
    ensures Distinct(Under(employees, employees, boss))
    ensures forall x :: x in Under(employees, employees, boss) <==> x in managers && managers[x] == boss
  {
    UnderHolds(employees, employees, boss);
    forall x
      ensures x in Under(employees, employees, boss) <==> x in managers && managers[x] == boss
    {
      if x in managers {
        var e :| e in employees && e.id == x;
        assert managers[x] == OnChart(employees, e.managerId);
      }
    }
  }

  /** The first `n` employees are linked. */
  ghost predicate LinkedUpTo(employees: seq<Employee>, n: nat, managers: map<Id, Id>) {
    && n <= |employees|
    && managers.Keys == IdsOf(employees[..n])
    && forall k :: 0 <= k < n ==> managers[employees[k].id] == OnChart(employees, employees[k].managerId)
  }

  lemma LinkOne(employees: seq<Employee>, n: nat, managers: map<Id, Id>)
    requires UniqueIds(employees) && n < |employees| && LinkedUpTo(employees, n, managers)
    ensures var e := employees[n]; LinkedUpTo(employees, n + 1, managers[e.id := OnChart(employees, e.managerId)])
  {
    assert employees[..n + 1] == employees[..n] + [employees[n]];
    assert forall k :: 0 <= k < n ==> employees[k] in employees[..n];
  }

  lemma UnderOneMore(employees: seq<Employee>, n: nat, boss: Id)
    requires n < |employees|
    ensures var e, before := employees[n], Under(employees, employees[..n], boss);
      Under(employees, employees[..n + 1], boss) == if OnChart(employees, e.managerId) == boss then before + [e.id]
        else before
  {
    assert employees[..n + 1][..n] == employees[..n];
  }

  /** Hangs every employee below their manager, or among the roots. */
  method LinkNodes(employees: seq<Employee>)
    returns (managers: map<Id, Id>, directReports: map<Id, seq<Id>>, roots: seq<Id>)
    requires UniqueIds(employees)
    ensures LinksOf(employees, managers) && directReports.Keys == managers.Keys
    ensures forall id :: id in managers ==> directReports[id] == Under(employees, employees, id)
    ensures roots == Under(employees, employees, "")
  {
    var ids := IdsOf(employees);
    managers := map[];
    directReports := map id | id in ids :: [];
    roots := [];
    for i := 0 to |employees|
      invariant LinkedUpTo(employees, i, managers) && directReports.Keys == ids
      invariant forall id :: id in ids ==> directReports[id] == Under(employees, employees[..i], id)
      invariant roots == Under(employees, employees[..i], "")
    {
      hide Under;
      hide LinkedUpTo;
      hide UniqueIds;
      var e := employees[i];
      LinkOne(employees, i, managers);
      forall id | id in ids + {""}
        ensures Under(employees, employees[..i + 1], id) ==
          if OnChart(employees, e.managerId) == id then Under(employees, employees[..i], id) + [e.id]
            else Under(employees, employees[..i], id)
      {
        UnderOneMore(employees, i, id);
      }
      managers := managers[e.id := OnChart(employees, e.managerId)];
      NotEmpty(employees);
      if e.managerId in ids {
        directReports := directReports[e.managerId := directReports[e.managerId] + [e.id]];
      } else {
        roots := roots + [e.id];
      }
    }
    assert employees[..|employees|] == employees;
  }

  lemma NotEmpty(employees: seq<Employee>)
    requires UniqueIds(employees)
    ensures "" !in IdsOf(employees)
  {
  }

  lemma ChartIsValid(employees: seq<Employee>, managers: map<Id, Id>)
    requires UniqueIds(employees) && LinksOf(employees, managers)
    ensures "" !in managers && forall id :: id in managers ==> managers[id] == "" || managers[id] in managers
    ensures forall boss :: ReportTo(managers, boss, Under(employees, employees, boss))
    ensures forall boss, x :: x in managers && managers[x] == boss ==> x in Under(employees, employees, boss)
  {
    forall boss
      ensures ReportTo(managers, boss, Under(employees, employees, boss))
      ensures forall x :: x in managers && managers[x] == boss ==> x in Under(employees, employees, boss)
    {
      UnderReportTo(employees, managers, boss);
    }
    NotEmpty(employees);
  }

  /** One tree for each employee without a manager on the chart, in order. */
  ghost predicate WholeChart(employees: seq<Employee>, managers: map<Id, Id>, nodes: seq<Node>) {
    && ChartedBelow(managers, "", "", nodes)
    && NobodyLeftOut(managers, "", MembersOf(nodes))
    && IdsAre(nodes, Under(employees, employees, ""))
  }

  /** The chart below `self`, or with an empty `self` the whole chart. */
  method DrawChart(employees: seq<Employee>, self: Id) returns (nodes: seq<Node>)
    requires UniqueIds(employees)
    ensures self != "" ==> |nodes| == if self in Links(employees) then 1 else 0
    ensures self in Links(employees) ==> nodes[0].id == self && Charted(Links(employees), self, nodes[0])
    ensures self == "" ==> WholeChart(employees, Links(employees), nodes)
  {
    var links, directReports, roots := LinkNodes(employees);
    LinksAreUnique(employees, links);
    ReadyToDraw(employees, links, directReports, self);
    var chart := new Chart(links, directReports);
    if self == "" {
      hide *;
      var total;
      nodes, total := chart.CountEach("", roots, "");
      WholeIsDrawn(employees, links, nodes);
    } else if self in links {
      hide *;
      var node := chart.CountReports(self, self);
      nodes := [node];
    } else {
      nodes := [];
    }
  }

  lemma ReadyToDraw(employees: seq<Employee>, managers: map<Id, Id>, directReports: map<Id, seq<Id>>, self: Id)
    requires UniqueIds(employees) && LinksOf(employees, managers) && directReports.Keys == managers.Keys
    requires forall id :: id in managers ==> directReports[id] == Under(employees, employees, id)
    ensures Indexed(managers, directReports)
    ensures UpClosed(managers, "", {}) && UpClosed(managers, self, {}) && ManagerIsDone(managers, "", {})
    ensures ReportTo(managers, "", Under(employees, employees, "")) && NoneIn(Under(employees, employees, ""), 0, {})
    ensures self in managers ==> MayVisit(managers, self, self, {})
  {
    ChartIsValid(employees, managers);
    hide Under;
  }

  lemma WholeIsDrawn(employees: seq<Employee>, managers: map<Id, Id>, nodes: seq<Node>)
    requires ChartedBelow(managers, "", "", nodes) && NobodyLeftOut(managers, "", MembersOf(nodes))
    requires IdsAre(nodes, Under(employees, employees, ""))
    ensures WholeChart(employees, managers, nodes)
  {
  }

  // ---- What a chart shows ----

  ghost function BelowOf(managers: map<Id, Id>, boss: Id): set<Id> {
    set x | x in managers && x != boss && ReportsUpTo(managers, x, boss)
  }

  lemma {:induction false} MembersReportUp(managers: map<Id, Id>, start: Id, node: Node, x: Id)
    requires Charted(managers, start, node) && x in Members(node) && "" !in managers
    ensures x in managers && ReportsUpTo(managers, x, node.id)
    decreases node
  {
    if x == node.id {
      assert Follow(managers, x, 0) == node.id;
    } else {
      MembersOfReportUp(managers, start, node.id, node.directReports, x);
    }
  }

  lemma {:induction false} MembersOfReportUp(managers: map<Id, Id>, start: Id, boss: Id, nodes: seq<Node>, x: Id)
    requires ChartedBelow(managers, start, boss, nodes) && x in MembersOf(nodes) && "" !in managers
    ensures x in managers && (boss != "" ==> ReportsUpTo(managers, x, boss))
    ensures exists root :: root in managers && managers[root] == boss && ReportsUpTo(managers, x, root)
    decreases nodes
  {
    var rest, last := nodes[..|nodes| - 1], nodes[|nodes| - 1];
    if x in Members(last) {
      MembersReportUp(managers, start, last, x);
      var k: nat :| Follow(managers, x, k) == last.id;
      FollowOnce(managers, x, k);
      assert boss != "" ==> Follow(managers, x, k + 1) == boss;
    } else {
      MembersOfReportUp(managers, start, boss, rest, x);
    }
  }

  lemma {:induction false} UpIsMember(managers: map<Id, Id>, start: Id, members: set<Id>, boss: Id, x: Id, k: nat)
    requires NobodyLeftOut(managers, start, members) && boss in members && boss != "" && "" !in managers
    requires start == "" || start == boss
    requires x in managers && Follow(managers, x, k) == boss
    requires forall id :: id in managers ==> managers[id] == "" || managers[id] in managers
    ensures x in members
    decreases k
  {
    if k > 0 && x != boss {
      UpIsMember(managers, start, members, boss, managers[x], k - 1);
    }
  }

  /** A tree holds its top and everyone who reports up to it, and counts the latter. */
  lemma TreeIsEveryoneBelow(managers: map<Id, Id>, start: Id, node: Node)
    requires Charted(managers, start, node) && "" !in managers && (start == "" || start == node.id)
    requires forall id :: id in managers ==> managers[id] == "" || managers[id] in managers
    ensures Members(node) == {node.id} + BelowOf(managers, node.id)
    ensures node.totalReportCount == |BelowOf(managers, node.id)|
  {
    forall x | x in Members(node)
      ensures x in {node.id} + BelowOf(managers, node.id)
    {
      MembersReportUp(managers, start, node, x);
    }
    forall x | x in BelowOf(managers, node.id)
      ensures x in Members(node)
    {
      var k: nat :| Follow(managers, x, k) == node.id;
      UpIsMember(managers, start, Members(node), node.id, x, k);
    }
    assert MembersOf(node.directReports) == BelowOf(managers, node.id);
  }

  /** `sub` is `node` or a tree inside it. */
  ghost predicate Within(node: Node, sub: Node)
    decreases node
  {
    sub == node || exists i :: 0 <= i < |node.directReports| && Within(node.directReports[i], sub)
  }

  lemma {:induction false} ChartedInside(managers: map<Id, Id>, start: Id, boss: Id, nodes: seq<Node>, i: nat)
    requires ChartedBelow(managers, start, boss, nodes) && i < |nodes|
    ensures Charted(managers, start, nodes[i])
  {
    if i < |nodes| - 1 {
      ChartedInside(managers, start, boss, nodes[..|nodes| - 1], i);
    }
  }

  lemma {:induction false} WithinIsCharted(managers: map<Id, Id>, start: Id, node: Node, sub: Node)
    requires Charted(managers, start, node) && Within(node, sub)
    ensures Charted(managers, start, sub)
    decreases node
  {
    if sub != node {
      var i :| 0 <= i < |node.directReports| && Within(node.directReports[i], sub);
      ChartedInside(managers, start, node.id, node.directReports, i);
      WithinIsCharted(managers, start, node.directReports[i], sub);
    }
  }

  /** In the company's chart every node, at any depth, shows the number of employees who report up to it. */
  lemma CountsAreExact(employees: seq<Employee>, managers: map<Id, Id>, nodes: seq<Node>, i: nat, sub: Node)
    requires UniqueIds(employees) && LinksOf(employees, managers)
    requires WholeChart(employees, managers, nodes) && i < |nodes| && Within(nodes[i], sub)
    ensures sub.totalReportCount == |BelowOf(managers, sub.id)|
    ensures Members(sub) == {sub.id} + BelowOf(managers, sub.id)
  {
    ChartIsValid(employees, managers);
    ChartedInside(managers, "", "", nodes, i);
    WithinIsCharted(managers, "", nodes[i], sub);
    TreeIsEveryoneBelow(managers, "", sub);
  }

  lemma {:induction false} TopIsMember(nodes: seq<Node>, i: nat)
    requires i < |nodes|
    ensures nodes[i].id in MembersOf(nodes)
  {
    if i < |nodes| - 1 {
      TopIsMember(nodes[..|nodes| - 1], i);
    }
  }

  /** Whoever's chain of managers ends is below an employee without a manager. */
  lemma {:induction false} EndingIsMember(managers: map<Id, Id>, members: set<Id>, x: Id, end: nat)
    requires x in managers && x != "" && Follow(managers, x, end) == ""
    requires forall id :: id in managers ==> managers[id] == "" || managers[id] in managers
    requires forall id :: id in managers && managers[id] == "" ==> id in members
    requires NobodyLeftOut(managers, "", members)
    ensures x in members
    decreases end
  {
    if managers[x] != "" {
      EndingIsMember(managers, members, managers[x], end - 1);
    }
  }

  lemma LoopIsNotMember(managers: map<Id, Id>, nodes: seq<Node>, x: Id, steps: nat)
    requires ChartedBelow(managers, "", "", nodes) && "" !in managers
    requires x != "" && steps > 0 && Follow(managers, x, steps) == x
    ensures x !in MembersOf(nodes)
  {
    if x in MembersOf(nodes) {
      MembersOfReportUp(managers, "", "", nodes, x);
      var root :| root in managers && managers[root] == "" && ReportsUpTo(managers, x, root);
      var k: nat :| Follow(managers, x, k) == root;
      FollowOnce(managers, x, k);
      LoopNeverEnds(managers, x, steps, k + 1);
    }
  }

  /** The company's chart shows everyone exactly when nobody is above themselves. */
  lemma EveryoneIsCharted(employees: seq<Employee>, managers: map<Id, Id>, nodes: seq<Node>)
    requires UniqueIds(employees) && LinksOf(employees, managers) && WholeChart(employees, managers, nodes)
    ensures (forall x :: x in managers ==> x in MembersOf(nodes)) <==> Acyclic(managers)
  {
    ChartIsValid(employees, managers);
    hide Under;
    hide ChartedBelow;
    hide MembersOf;
    if Acyclic(managers) {
      AcyclicIsNoRevisit(managers);
      forall x | x in managers && managers[x] == ""
        ensures x in MembersOf(nodes)
      {
        var i :| 0 <= i < |nodes| && nodes[i].id == x;
        TopIsMember(nodes, i);
      }
      hide NeverRevisits;
      forall x | x in managers
        ensures x in MembersOf(nodes)
      {
        var end := EndsOrRevisits(managers, x);
        EndingIsMember(managers, MembersOf(nodes), x, end);
      }
    } else {
      var x: Id, steps: nat :| x != "" && steps > 0 && Follow(managers, x, steps) == x;
      LoopIsNotMember(managers, nodes, x, steps);
    }
  }
}
