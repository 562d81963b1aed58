/**
 * `mapWithConcurrency`: workers that share a next index and a first failure. A run is any
 * interleaving of worker steps; the claims below hold of all of them.
 */
module WorkerPool {
  import opened Integers
  import opened Wrappers

  datatype Worker = AtLoopHead | Calling(index: nat) | Returned

  datatype State<R, E> = State(next: nat, failure: Option<E>, results: seq<Option<R>>, workers: seq<Worker>)

  /** One uninterrupted stretch of worker `worker`: its loop head, or the end of the call it awaits. */
  datatype Step = LoopHead(worker: nat) | CallEnds(worker: nat)

  function WorkerCount(n: nat, limit: int): nat {
    Max(1, Min(limit, n))
  }

  function Initial<R, E>(n: nat, limit: int): State<R, E> {
    State(0, None, seq(n, _ => None), seq(WorkerCount(n, limit), _ => AtLoopHead))
  }

  predicate Enabled<R, E>(s: State<R, E>, step: Step) {
    && step.worker < |s.workers|
    && (if step.LoopHead? then s.workers[step.worker].AtLoopHead?
        else s.workers[step.worker].Calling? && s.workers[step.worker].index < |s.results|)
  }

  /** A loop head that begins another call. */
  predicate Begins<R, E>(s: State<R, E>, step: Step) {
    step.LoopHead? && s.failure.None? && s.next < |s.results|
  }

  /** `fn(i)` is what the call for item `i` comes to: a value, or the error it rejects with. */
  function Apply<R, E>(s: State<R, E>, fn: nat -> Result<R, E>, step: Step): State<R, E>
    requires Enabled(s, step)
  {
    var w := step.worker;
    if step.LoopHead? then
      if s.failure.Some? then s.(workers := s.workers[w := Returned])
      else if s.next >= |s.results| then s.(next := s.next + 1, workers := s.workers[w := Returned])
      else s.(next := s.next + 1, workers := s.workers[w := Calling(s.next)])
    else
      var i := s.workers[w].index;
      match fn(i)
      case Ok(value) => s.(results := s.results[i := Some(value)], workers := s.workers[w := AtLoopHead])
      case Err(error) =>
        s.(failure := if s.failure.None? then Some(error) else s.failure, workers := s.workers[w := Returned])
  }

  // ---- Runs ----

  ghost predicate Possible<R, E>(s: State<R, E>, fn: nat -> Result<R, E>, steps: seq<Step>)
    decreases |steps|, 0
  {
    steps == [] ||
    var before, last := steps[..|steps| - 1], steps[|steps| - 1];
    Possible(s, fn, before) && Enabled(After(s, fn, before), last)
  }

  ghost function After<R, E>(s: State<R, E>, fn: nat -> Result<R, E>, steps: seq<Step>): State<R, E>
    requires Possible(s, fn, steps)
    decreases |steps|, 1
  {
    if steps == [] then s
    else Apply(After(s, fn, steps[..|steps| - 1]), fn, steps[|steps| - 1])
  }

  /** The items whose calls have begun, in that order. */
  ghost function Begun<R, E>(s: State<R, E>, fn: nat -> Result<R, E>, steps: seq<Step>): seq<nat>
    requires Possible(s, fn, steps)
  {
    if steps == [] then []
    else
      var before := steps[..|steps| - 1];
      var at := After(s, fn, before);
      Begun(s, fn, before) + if Begins(at, steps[|steps| - 1]) then [at.next] else []
  }

  /** The error of the call that was the first to reject. */
  ghost function FirstRejection<R, E>(s: State<R, E>, fn: nat -> Result<R, E>, steps: seq<Step>): Option<E>
    requires Possible(s, fn, steps)
  {
    if steps == [] then None
    else
      var before, last := steps[..|steps| - 1], steps[|steps| - 1];
      var earlier := FirstRejection(s, fn, before);
      var at := After(s, fn, before);
      if earlier.Some? || last.LoopHead? || fn(at.workers[last.worker].index).Ok? then earlier
      else Some(fn(at.workers[last.worker].index).error)
  }

  function InFlight(workers: seq<Worker>): nat {
    if workers == [] then 0
    else InFlight(workers[1..]) + if workers[0].Calling? then 1 else 0
  }

  function UpTo(n: nat): (s: seq<nat>)
    ensures |s| == n && forall i :: 0 <= i < n ==> s[i] == i
  {
    seq(n, i => i)
  }

  predicate AllReturned<R, E>(s: State<R, E>) {
    forall w :: 0 <= w < |s.workers| ==> s.workers[w].Returned?
  }

  // ---- What every step keeps ----

  ghost predicate InCall<R, E>(s: State<R, E>, i: nat) {
    exists w :: 0 <= w < |s.workers| && s.workers[w] == Calling(i)
  }

  ghost predicate Rejected<R, E>(s: State<R, E>, fn: nat -> Result<R, E>, i: nat) {
    fn(i).Err? && s.failure.Some?
  }

  ghost predicate Valid<R, E>(s: State<R, E>, n: nat, count: nat, fn: nat -> Result<R, E>) {
    && |s.results| == n && |s.workers| == count
    && (forall w :: 0 <= w < count && s.workers[w].Calling? ==> s.workers[w].index < Min(s.next, n))
    && (forall v, w :: 0 <= v < w < count && s.workers[v].Calling? ==> s.workers[v] != s.workers[w])
    && (forall i :: 0 <= i < n && s.results[i].Some? ==> i < s.next && fn(i) == Ok(s.results[i].value))
    && (forall i :: 0 <= i < Min(s.next, n) ==> s.results[i].Some? || InCall(s, i) || Rejected(s, fn, i))
    && (forall w :: 0 <= w < count && s.workers[w].Calling? ==> s.results[s.workers[w].index].None?)
    && (s.failure.Some? ==> exists i :: 0 <= i < n && fn(i) == Err(s.failure.value))
    && (forall w :: 0 <= w < count && s.workers[w].Returned? ==> s.failure.Some? || s.next >= n)
  }

  lemma InCallKept<R, E>(s: State<R, E>, t: State<R, E>, w: nat, i: nat)
    requires w < |s.workers| == |t.workers| && InCall(s, i) && s.workers[w] != Calling(i)
    requires forall v :: 0 <= v < |s.workers| && v != w ==> t.workers[v] == s.workers[v]
    ensures InCall(t, i)
  {
    var v :| 0 <= v < |s.workers| && s.workers[v] == Calling(i);
    assert t.workers[v] == Calling(i);
  }

  lemma LoopHeadKeepsValid<R, E>(s: State<R, E>, n: nat, count: nat, fn: nat -> Result<R, E>, step: Step)
    requires Valid(s, n, count, fn) && Enabled(s, step) && step.LoopHead?
    ensures Valid(Apply(s, fn, step), n, count, fn)
  {
    var t := Apply(s, fn, step);
    if Begins(s, step) {
      assert t.workers[step.worker] == Calling(s.next);
    }
    forall i | 0 <= i < Min(t.next, n)
      ensures t.results[i].Some? || InCall(t, i) || Rejected(t, fn, i)
    {
      if i < Min(s.next, n) && InCall(s, i) {
        InCallKept(s, t, step.worker, i);
      }
    }
  }

  lemma CallEndKeepsValid<R, E>(s: State<R, E>, n: nat, count: nat, fn: nat -> Result<R, E>, step: Step)
    requires Valid(s, n, count, fn) && Enabled(s, step) && step.CallEnds?
    ensures Valid(Apply(s, fn, step), n, count, fn)
  {
    var t := Apply(s, fn, step);
    var ended := s.workers[step.worker].index;
    assert fn(ended).Err? ==> t.failure.Some? && Rejected(t, fn, ended);
    forall i | 0 <= i < Min(t.next, n)
      ensures t.results[i].Some? || InCall(t, i) || Rejected(t, fn, i)
    {
      if i != ended && InCall(s, i) {
        InCallKept(s, t, step.worker, i);
      }
    }
  }

  lemma StepKeepsValid<R, E>(s: State<R, E>, n: nat, count: nat, fn: nat -> Result<R, E>, step: Step)
    requires Valid(s, n, count, fn) && Enabled(s, step)
    ensures Valid(Apply(s, fn, step), n, count, fn)
  {
    if step.LoopHead? {
      LoopHeadKeepsValid(s, n, count, fn, step);
    } else {
      CallEndKeepsValid(s, n, count, fn, step);
    }
  }

  lemma {:induction false} RunKeepsValid<R, E>(n: nat, limit: int, fn: nat -> Result<R, E>, steps: seq<Step>)
    requires Possible(Initial<R, E>(n, limit), fn, steps)
    ensures Valid(After(Initial<R, E>(n, limit), fn, steps), n, WorkerCount(n, limit), fn)
  {
    if steps != [] {
      var s := Initial<R, E>(n, limit);
      var before := steps[..|steps| - 1];
      RunKeepsValid(n, limit, fn, before);
      StepKeepsValid(After(s, fn, before), n, WorkerCount(n, limit), fn, steps[|steps| - 1]);
    }
  }

  // ---- The promises ----

  lemma {:induction false} InFlightAtMost(workers: seq<Worker>)
    ensures InFlight(workers) <= |workers|
  {
    if workers != [] {
      InFlightAtMost(workers[1..]);
    }
  }

  /** It counts the workers in a call: none, and one more for each that begins one. */
  lemma {:induction false} InFlightIsCalls(workers: seq<Worker>, w: nat, item: nat)
    ensures (forall v :: 0 <= v < |workers| ==> !workers[v].Calling?) ==> InFlight(workers) == 0
    ensures w < |workers| && !workers[w].Calling? ==>
      InFlight(workers[w := Calling(item)]) == InFlight(workers) + 1
    decreases |workers|
  {
    if workers != [] {
      InFlightIsCalls(workers[1..], if w > 0 then w - 1 else 0, item);
      if 0 < w < |workers| {
        assert workers[w := Calling(item)][1..] == workers[1..][w - 1 := Calling(item)];
      }
    }
  }

  /** Never more calls in flight than the limit allows (but one, when the limit is below one). */
  lemma BoundedConcurrency<R, E>(n: nat, limit: int, fn: nat -> Result<R, E>, steps: seq<Step>)
    requires Possible(Initial<R, E>(n, limit), fn, steps)
    ensures InFlight(After(Initial<R, E>(n, limit), fn, steps).workers) <= Max(1, Min(limit, n))
  {
    RunKeepsValid(n, limit, fn, steps);
    InFlightAtMost(After(Initial<R, E>(n, limit), fn, steps).workers);
  }

  lemma BeginsNext<R, E>(s: State<R, E>, fn: nat -> Result<R, E>, step: Step)
    requires Enabled(s, step)
    ensures var n, t := |s.results|, Apply(s, fn, step);
            UpTo(Min(t.next, n)) == UpTo(Min(s.next, n)) + if Begins(s, step) then [s.next] else []
  {
    if Begins(s, step) {
      assert UpTo(s.next) + [s.next] == UpTo(s.next + 1);
    } else {
      assert UpTo(Min(s.next, |s.results|)) + [] == UpTo(Min(s.next, |s.results|));
    }
  }

  /** Calls begin in item order: each item once, and no item is skipped. */
  lemma {:induction false} CallsBeginInOrder<R, E>(n: nat, limit: int, fn: nat -> Result<R, E>, steps: seq<Step>)
    requires Possible(Initial<R, E>(n, limit), fn, steps)
    ensures var s := Initial<R, E>(n, limit);
            Begun(s, fn, steps) == UpTo(Min(After(s, fn, steps).next, n))
  {
    if steps != [] {
      var s := Initial<R, E>(n, limit);
      var before := steps[..|steps| - 1];
      CallsBeginInOrder(n, limit, fn, before);
      RunKeepsValid(n, limit, fn, before);
      var at := After(s, fn, before);
      assert |at.results| == n;
      BeginsNext(at, fn, steps[|steps| - 1]);
      hide Valid;
      hide Apply;
      hide Begins;
      hide UpTo;
    }
  }

  /** The recorded failure is the first rejection. */
  lemma {:induction false} FirstRejectionIsKept<R, E>(s: State<R, E>, fn: nat -> Result<R, E>, steps: seq<Step>)
    requires Possible(s, fn, steps) && s.failure.None?
    ensures After(s, fn, steps).failure == FirstRejection(s, fn, steps)
  {
    if steps != [] {
      FirstRejectionIsKept(s, fn, steps[..|steps| - 1]);
    }
  }

  /** Once a call has rejected, no call begins, however the run goes on. */
  lemma {:induction false} NothingBeginsAfterFailure<R, E>(s: State<R, E>, fn: nat -> Result<R, E>,
      steps: seq<Step>, more: seq<Step>)
    requires Possible(s, fn, steps) && Possible(s, fn, steps + more)
    requires After(s, fn, steps).failure.Some?
    ensures Begun(s, fn, steps + more) == Begun(s, fn, steps)
    ensures After(s, fn, steps + more).failure == After(s, fn, steps).failure
    decreases |more|
  {
    var all := steps + more;
    if more == [] {
      assert all == steps;
    } else {
      assert all[..|all| - 1] == steps + more[..|more| - 1];
      NothingBeginsAfterFailure(s, fn, steps, more[..|more| - 1]);
    }
  }

  /** What the awaited workers leave for the caller: the first failure, or all results in item order. */
  function Outcome<R, E>(s: State<R, E>): Result<seq<Option<R>>, E> {
    if s.failure.Some? then Err(s.failure.value) else Ok(s.results)
  }

  ghost predicate AllSucceed<R, E>(n: nat, fn: nat -> Result<R, E>) {
    forall i :: 0 <= i < n ==> fn(i).Ok?
  }

  ghost predicate Delivers<R, E>(outcome: Result<seq<Option<R>>, E>, n: nat, fn: nat -> Result<R, E>) {
    && (outcome.Ok? <==> AllSucceed(n, fn))
    && (outcome.Ok? ==> |outcome.value| == n
                        && forall i :: 0 <= i < n ==> outcome.value[i] == Some(fn(i).value))
    && (outcome.Err? ==> exists i :: 0 <= i < n && fn(i) == Err(outcome.error))
  }

  lemma SettledStateDelivers<R, E>(s: State<R, E>, n: nat, count: nat, fn: nat -> Result<R, E>)
    requires Valid(s, n, count, fn) && count >= 1 && AllReturned(s)
    ensures Delivers(Outcome(s), n, fn)
  {
    assert s.workers[0].Returned?;
    forall i | s.failure.None? && 0 <= i < n
      ensures s.results[i] == Some(fn(i).value) && fn(i).Ok?
    {
      assert !InCall(s, i);
    }
  }

  /** Every finished run: it throws if and only if some item fails, and otherwise maps every item. */
  lemma EveryRunDelivers<R, E>(n: nat, limit: int, fn: nat -> Result<R, E>, steps: seq<Step>)
    requires Possible(Initial<R, E>(n, limit), fn, steps)
    requires AllReturned(After(Initial<R, E>(n, limit), fn, steps))
    ensures var s := Initial<R, E>(n, limit);
            && Delivers(Outcome(After(s, fn, steps)), n, fn)
            && (Outcome(After(s, fn, steps)).Err? ==>
                  FirstRejection(s, fn, steps) == Some(Outcome(After(s, fn, steps)).error))
  {
    RunKeepsValid(n, limit, fn, steps);
    SettledStateDelivers(After(Initial<R, E>(n, limit), fn, steps), n, WorkerCount(n, limit), fn);
    FirstRejectionIsKept(Initial<R, E>(n, limit), fn, steps);
  }

  // ---- Runs end ----

  function Load(workers: seq<Worker>): nat {
    if workers == [] then 0
    else Load(workers[1..]) + match workers[0] case AtLoopHead => 1 case Calling(_) => 2 case Returned => 0
  }

  /** Steps a state can still make, at most. */
  function StepsLeft<R, E>(s: State<R, E>): nat {
    3 * Max(0, |s.results| - s.next) + Load(s.workers)
  }

  lemma {:induction false} LoadOfUpdate(workers: seq<Worker>, w: nat, state: Worker)
    requires w < |workers|
    ensures Load(workers[w := state]) == Load(workers) - Load([workers[w]]) + Load([state])
    decreases w
  {
    var updated := workers[w := state];
    if w > 0 {
      LoadOfUpdate(workers[1..], w - 1, state);
      assert updated[1..] == workers[1..][w - 1 := state];
    } else {
      assert updated[1..] == workers[1..];
    }
  }

  lemma StepUsesLoad<R, E>(s: State<R, E>, fn: nat -> Result<R, E>, step: Step)
    requires Enabled(s, step)
    ensures StepsLeft(Apply(s, fn, step)) < StepsLeft(s)
  {
    var t := Apply(s, fn, step);
    LoadOfUpdate(s.workers, step.worker, t.workers[step.worker]);
    assert s.workers[step.worker := t.workers[step.worker]] == t.workers;
  }

  lemma {:induction false} LoadAtStart(workers: seq<Worker>)
    requires forall w :: 0 <= w < |workers| ==> workers[w].AtLoopHead?
    ensures Load(workers) == |workers|
  {
    if workers != [] {
      LoadAtStart(workers[1..]);
    }
  }

  lemma {:induction false} StepsAreUsedUp<R, E>(s: State<R, E>, fn: nat -> Result<R, E>, steps: seq<Step>)
    requires Possible(s, fn, steps)
    ensures |steps| + StepsLeft(After(s, fn, steps)) <= StepsLeft(s)
  {
    if steps != [] {
      var before := steps[..|steps| - 1];
      StepsAreUsedUp(s, fn, before);
      StepUsesLoad(After(s, fn, before), fn, steps[|steps| - 1]);
    }
  }

  /** No run is longer than three steps an item and one a worker, and none gets stuck before it is done. */
  lemma RunsEnd<R, E>(n: nat, limit: int, fn: nat -> Result<R, E>, steps: seq<Step>)
    requires Possible(Initial<R, E>(n, limit), fn, steps)
    ensures |steps| <= 3 * n + WorkerCount(n, limit)
    ensures var s := After(Initial<R, E>(n, limit), fn, steps);
            AllReturned(s) || exists step :: Enabled(s, step)
  {
    var start := Initial<R, E>(n, limit);
    StepsAreUsedUp(start, fn, steps);
    LoadAtStart(start.workers);
    RunKeepsValid(n, limit, fn, steps);
    var s := After(start, fn, steps);
    if w :| 0 <= w < |s.workers| && !s.workers[w].Returned? {
      assert Enabled(s, if s.workers[w].AtLoopHead? then LoopHead(w) else CallEnds(w));
    }
  }

  // ---- The shared variables and the workers that update them ----

  class Pool<R, E> {
    var next: nat
    var failure: Option<E>
    var results: seq<Option<R>>
    var workers: seq<Worker>

    ghost function Contents(): State<R, E>
      reads this
    {
      State(next, failure, results, workers)
    }

    constructor (n: nat, limit: int)
      ensures Contents() == Initial(n, limit)
    {
      next := 0;
      failure := None;
      results := seq(n, _ => None);
      workers := seq(WorkerCount(n, limit), _ => AtLoopHead);
    }

    method TakeNext(w: nat, ghost fn: nat -> Result<R, E>)
      requires Enabled(Contents(), LoopHead(w))
      modifies this
      ensures Contents() == Apply(old(Contents()), fn, LoopHead(w))
    {
      if failure.Some? {
        workers := workers[w := Returned];
        return;
      }
      var i := next;
      next := next + 1;
      workers := workers[w := if i >= |results| then Returned else Calling(i)];
    }

    method Settle(w: nat, fn: nat -> Result<R, E>)
      requires Enabled(Contents(), CallEnds(w))
      modifies this
      ensures Contents() == Apply(old(Contents()), fn, CallEnds(w))
    {
      var i := workers[w].index;
      match fn(i) {
        case Ok(value) =>
          results := results[i := Some(value)];
          workers := workers[w := AtLoopHead];
        case Err(error) =>
          if failure.None? {
            failure := Some(error);
          }
          workers := workers[w := Returned];
      }
    }
  }

  lemma OneMoreStep<R, E>(s: State<R, E>, fn: nat -> Result<R, E>, steps: seq<Step>, step: Step)
    requires Possible(s, fn, steps) && Enabled(After(s, fn, steps), step)
    ensures Possible(s, fn, steps + [step])
    ensures After(s, fn, steps + [step]) == Apply(After(s, fn, steps), fn, step)
  {
    assert (steps + [step])[..|steps|] == steps;
  }

  /** Runs the pool under an arbitrary scheduler, in those `steps`, until every worker has returned. */
  method MapWithConcurrency<R, E>(n: nat, limit: int, fn: nat -> Result<R, E>)
    returns (outcome: Result<seq<Option<R>>, E>, ghost steps: seq<Step>)
    ensures Delivers(outcome, n, fn)
    ensures Possible(Initial<R, E>(n, limit), fn, steps)
    ensures AllReturned(After(Initial<R, E>(n, limit), fn, steps))
    ensures outcome.Err? ==> FirstRejection(Initial<R, E>(n, limit), fn, steps) == Some(outcome.error)
  {
    var pool := new Pool<R, E>(n, limit);
    ghost var start := Initial<R, E>(n, limit);
    steps := [];
    while exists w :: 0 <= w < |pool.workers| && !pool.workers[w].Returned?
      invariant Possible(start, fn, steps) && pool.Contents() == After(start, fn, steps)
      invariant Valid(pool.Contents(), n, WorkerCount(n, limit), fn)
      decreases StepsLeft(pool.Contents())
    {
      var w :| 0 <= w < |pool.workers| && !pool.workers[w].Returned?;
      ghost var step := if pool.workers[w].AtLoopHead? then LoopHead(w) else CallEnds(w);
      OneMoreStep(start, fn, steps, step);
      StepKeepsValid(pool.Contents(), n, WorkerCount(n, limit), fn, step);
      StepUsesLoad(pool.Contents(), fn, step);
      if pool.workers[w].AtLoopHead? {
        pool.TakeNext(w, fn);
      } else {
        pool.Settle(w, fn);
      }
      steps := steps + [step];
    }
    EveryRunDelivers(n, limit, fn, steps);
    outcome := if pool.failure.Some? then Err(pool.failure.value) else Ok(pool.results);
  }
}
