/** Following a who-reports-to-whom map upwards. An absent or empty name means "no manager". */
module ManagerChains {
  type Id = string

  /** The manager's name, or the empty name. */
  function ManagerOf(managers: map<Id, Id>, id: Id): Id {
    if id in managers then managers[id] else ""
  }

  /** Who is reached after `steps` managers, empty once the chain has ended. */
  function Follow(managers: map<Id, Id>, id: Id, steps: nat): Id
    decreases steps
  {
    if id == "" || steps == 0 then id else Follow(managers, ManagerOf(managers, id), steps - 1)
  }

  /** `boss` is `id` or above it. */
  ghost predicate ReportsUpTo(managers: map<Id, Id>, id: Id, boss: Id) {
    boss != "" && exists steps: nat :: Follow(managers, id, steps) == boss
  }

  /** Nobody is above themselves. */
  ghost predicate Acyclic(managers: map<Id, Id>) {
    forall id: Id, steps: nat :: id != "" && steps > 0 ==> Follow(managers, id, steps) != id
  }

  /** Someone is met twice, after `first` managers and `period` managers later. */
  ghost predicate MeetsAgain(managers: map<Id, Id>, id: Id, first: nat, period: nat) {
    period > 0 && Follow(managers, id, first) != "" &&
      Follow(managers, id, first + period) == Follow(managers, id, first)
  }

  ghost predicate NeverRevisits(managers: map<Id, Id>, id: Id) {
    forall first: nat, period: nat :: !MeetsAgain(managers, id, first, period)
  }

  lemma {:induction false} FollowAdds(managers: map<Id, Id>, id: Id, i: nat, j: nat)
    ensures Follow(managers, id, i + j) == Follow(managers, Follow(managers, id, i), j)
    decreases i
  {
    if id != "" && i > 0 {
      FollowAdds(managers, ManagerOf(managers, id), i - 1, j);
    }
  }

  lemma FollowOnce(managers: map<Id, Id>, id: Id, i: nat)
    ensures Follow(managers, id, i + 1) == if Follow(managers, id, i) == "" then ""
      else ManagerOf(managers, Follow(managers, id, i))
  {
    FollowAdds(managers, id, i, 1);
    assert Follow(managers, Follow(managers, id, i), 1) ==
           if Follow(managers, id, i) == "" then ""
             else Follow(managers, ManagerOf(managers, Follow(managers, id, i)), 0);
  }

  /** A chain that ends meets nobody twice. */
  lemma {:induction false} EndedChain(managers: map<Id, Id>, id: Id, end: nat, first: nat, period: nat)
    requires Follow(managers, id, end) == "" && MeetsAgain(managers, id, first, period)
    ensures false
    decreases end
  {
    if first >= end {
      FollowAdds(managers, id, end, first - end);
    } else if end < period {
      FollowAdds(managers, id, end, first + period - end);
    } else {
      // The end is met one period earlier as well.
      var past := end - first;
      FollowAdds(managers, id, first, past);
      FollowAdds(managers, id, first + period, past);
      FollowAdds(managers, id, end, period);
      var earlier: nat := end - period;
      if first <= earlier {
        FollowAdds(managers, id, first, earlier - first);
        FollowAdds(managers, id, first + period, earlier - first);
        EndedChain(managers, id, earlier, first, period);
      } else {
        FollowAdds(managers, id, end, first + period - end);
      }
    }
  }

  lemma EndsSoNeverRevisits(managers: map<Id, Id>, id: Id, end: nat)
    requires Follow(managers, id, end) == ""
    ensures NeverRevisits(managers, id)
  {
    forall first: nat, period: nat
      ensures !MeetsAgain(managers, id, first, period)
    {
      if MeetsAgain(managers, id, first, period) {
        EndedChain(managers, id, end, first, period);
      }
    }
  }

  /** In an acyclic map no chain meets anybody twice, and the other way round. */
  lemma AcyclicIsNoRevisit(managers: map<Id, Id>)
    ensures Acyclic(managers) <==> forall id: Id :: NeverRevisits(managers, id)
  {
    if Acyclic(managers) {
      forall id: Id, first: nat, period: nat
        ensures !MeetsAgain(managers, id, first, period)
      {
        FollowAdds(managers, id, first, period);
      }
    } else {
      var id: Id, steps: nat :| id != "" && steps > 0 && Follow(managers, id, steps) == id;
      assert MeetsAgain(managers, id, 0, steps);
      assert !NeverRevisits(managers, id);
    }
  }

  /** Whoever is on a loop reaches everyone on it, so a chain into a loop never ends. */
  lemma LoopNeverEnds(managers: map<Id, Id>, id: Id, steps: nat, end: nat)
    requires id != "" && steps > 0 && Follow(managers, id, steps) == id
    ensures Follow(managers, id, end) != ""
  {
    if Follow(managers, id, end) == "" {
      assert MeetsAgain(managers, id, 0, steps);
      EndedChain(managers, id, end, 0, steps);
    }
  }

  /** Two maps that agree along a chain give the same chain. */
  lemma {:induction false} SameChain(a: map<Id, Id>, b: map<Id, Id>, id: Id, steps: nat)
    requires forall i: nat | i < steps && Follow(a, id, i) != "" ::
      ManagerOf(a, Follow(a, id, i)) == ManagerOf(b, Follow(a, id, i))
    ensures Follow(b, id, steps) == Follow(a, id, steps)
  {
    if steps > 0 {
      SameChain(a, b, id, steps - 1);
      FollowOnce(a, id, steps - 1);
      FollowOnce(b, id, steps - 1);
    }
  }

  /** A loop in one map, none in another, passes through someone whose manager differs. */
  lemma NewLoopUsesNewEdge(before: map<Id, Id>, after: map<Id, Id>, id: Id, steps: nat) returns (at: nat)
    requires Acyclic(before) && id != "" && steps > 0 && Follow(after, id, steps) == id
    ensures at < steps && Follow(after, id, at) != ""
    ensures ManagerOf(after, Follow(after, id, at)) != ManagerOf(before, Follow(after, id, at))
  {
    if forall i: nat | i < steps && Follow(after, id, i) != "" ::
      ManagerOf(after, Follow(after, id, i)) == ManagerOf(before, Follow(after, id, i))
    {
      SameChain(after, before, id, steps);
      assert false;
    }
    at :| at < steps && Follow(after, id, at) != "" &&
      ManagerOf(after, Follow(after, id, at)) != ManagerOf(before, Follow(after, id, at));
  }

  /** Everyone on a loop is on that loop. */
  lemma LoopFromAnywhere(managers: map<Id, Id>, id: Id, steps: nat, at: nat)
    requires id != "" && steps > 0 && Follow(managers, id, steps) == id && at < steps
    ensures var x := Follow(managers, id, at); x != "" && Follow(managers, x, steps) == x
  {
    LoopNeverEnds(managers, id, steps, at);
    FollowAdds(managers, id, at, steps);
    FollowAdds(managers, id, steps, at);
  }

  /** Walking up either ends or meets somebody again, since there are only so many managers. */
  lemma EndsOrRevisits(managers: map<Id, Id>, id: Id) returns (end: nat)
    ensures Follow(managers, id, end) == "" || !NeverRevisits(managers, id)
  {
    var seen: set<Id> := {};
    end := 0;
    while Follow(managers, id, end) != ""
      invariant Follow(managers, id, end) in managers.Values + {id, ""}
      invariant forall x :: x in seen ==> exists i: nat :: i < end && Follow(managers, id, i) == x
      invariant "" !in seen && seen <= managers.Values + {id}
      decreases managers.Values + {id} - seen
    {
      var x := Follow(managers, id, end);
      if x in seen {
        var first: nat :| first < end && Follow(managers, id, first) == x;
        assert MeetsAgain(managers, id, first, end - first);
        return;
      }
      FollowOnce(managers, id, end);
      seen := seen + {x};
      end := end + 1;
    }
  }
}
