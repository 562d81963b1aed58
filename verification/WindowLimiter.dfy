/**
 * The fixed-window limiter of the password reset: a counter per key, cleaned up lazily. Cleaning
 * up never changes an answer, and no key is accepted more than 2 * max - 1 times in any stretch
 * of time as long as a window, however the stretch lies.
 */
module WindowLimiter {
  datatype Entry = Entry(count: nat, resetAt: int)

  type Hits = map<string, Entry>

  datatype Limits = Limits(max: int, windowMs: int)

  datatype Hit = Hit(key: string, at: int)

  /** The map is cleaned up when it has more entries than this. */
  const PRUNE_ABOVE := 10_000

  predicate Live(hits: Hits, key: string, now: int) {
    key in hits && hits[key].resetAt > now
  }

  function Accepts(l: Limits, hits: Hits, h: Hit): bool {
    Live(hits, h.key, h.at) ==> hits[h.key].count + 1 <= l.max
  }

  /** The counters after a hit, before any cleaning up. */
  function Record(l: Limits, hits: Hits, h: Hit): Hits {
    if Live(hits, h.key, h.at) then hits[h.key := hits[h.key].(count := hits[h.key].count + 1)]
    else hits[h.key := Entry(1, h.at + l.windowMs)]
  }

  function Prune(hits: Hits, now: int): Hits {
    map key | key in hits && hits[key].resetAt > now :: hits[key]
  }

  /** The counters after a hit. */
  function Next(l: Limits, hits: Hits, h: Hit): Hits {
    var recorded := Record(l, hits, h);
    if !Live(hits, h.key, h.at) && |recorded| > PRUNE_ABOVE then Prune(recorded, h.at) else recorded
  }

  class Limiter {
    const limits: Limits
    var hits: Hits

    constructor (limits: Limits)
      ensures this.limits == limits && hits == map[]
    {
      this.limits := limits;
      hits := map[];
    }

    method Take(key: string, now: int) returns (ok: bool)
      modifies this
      ensures ok == Accepts(limits, old(hits), Hit(key, now))
      ensures hits == Next(limits, old(hits), Hit(key, now))
    {
      if key !in hits || hits[key].resetAt <= now {
        hits := hits[key := Entry(1, now + limits.windowMs)];
        if |hits| > PRUNE_ABOVE {
          PruneExpired(now);
        }
        return true;
      }
      var entry := hits[key];
      entry := entry.(count := entry.count + 1);
      hits := hits[key := entry];
      return entry.count <= limits.max;
    }

    method PruneExpired(now: int)
      modifies this
      ensures hits == Prune(old(hits), now)
    {
      var rest := hits.Keys;
      while rest != {}
        invariant rest <= old(hits).Keys
        invariant forall key :: key in hits <==> key in old(hits) && (key in rest || old(hits)[key].resetAt > now)
        invariant forall key :: key in hits ==> hits[key] == old(hits)[key]
      {
        var key :| key in rest;
        rest := rest - {key};
        if key in hits && hits[key].resetAt <= now {
          hits := map other | other in hits && other != key :: hits[other];
        }
      }
    }
  }

  // ---- Cleaning up is invisible ----

  predicate ClockRuns(trace: seq<Hit>) {
    forall i, j :: 0 <= i < j < |trace| ==> trace[i].at <= trace[j].at
  }

  predicate NotBefore(now: int, trace: seq<Hit>) {
    trace != [] ==> now <= trace[0].at
  }

  /** The answers of the limiter. */
  function Answers(l: Limits, hits: Hits, trace: seq<Hit>): seq<bool>
    decreases |trace|
  {
    if trace == [] then []
    else [Accepts(l, hits, trace[0])] + Answers(l, Next(l, hits, trace[0]), trace[1..])
  }

  /** The answers of a limiter that never forgets an entry. */
  function AnswersUnpruned(l: Limits, hits: Hits, trace: seq<Hit>): seq<bool>
    decreases |trace|
  {
    if trace == [] then []
    else [Accepts(l, hits, trace[0])] + AnswersUnpruned(l, Record(l, hits, trace[0]), trace[1..])
  }

  /** From `now` on the two maps answer alike: `pruned` lacks only expired entries of `full`. */
  ghost predicate SameLive(pruned: Hits, full: Hits, now: int) {
    && (forall key :: key in pruned ==> key in full && pruned[key] == full[key])
    && (forall key :: Live(full, key, now) ==> key in pruned)
  }

  lemma {:induction false} AnswersAgree(l: Limits, pruned: Hits, full: Hits, now: int, trace: seq<Hit>)
    requires SameLive(pruned, full, now) && NotBefore(now, trace) && ClockRuns(trace)
    ensures Answers(l, pruned, trace) == AnswersUnpruned(l, full, trace)
    decreases |trace|
  {
    if trace != [] {
      var h := trace[0];
      assert Live(pruned, h.key, h.at) == Live(full, h.key, h.at);
      assert SameLive(Record(l, pruned, h), Record(l, full, h), h.at);
      assert SameLive(Next(l, pruned, h), Record(l, full, h), h.at);
      AnswersAgree(l, Next(l, pruned, h), Record(l, full, h), h.at, trace[1..]);
    }
  }

  /**
   * From whatever counters, and under a clock that never goes back, no answer depends on entries having been pruned.
   */
  lemma PruningIsInvisible(l: Limits, hits: Hits, trace: seq<Hit>)
    requires ClockRuns(trace)
    ensures Answers(l, hits, trace) == AnswersUnpruned(l, hits, trace)
  {
    if trace != [] {
      AnswersAgree(l, hits, hits, trace[0].at, trace);
    }
  }

  // ---- How many hits are accepted ----

  /** Hits of `key` in `[from, to)` answered with yes. */
  function Accepted(trace: seq<Hit>, answers: seq<bool>, key: string, from: int, to: int): nat
    requires |trace| == |answers|
  {
    if trace == [] then 0
    else (if answers[0] && trace[0].key == key && from <= trace[0].at < to then 1 else 0)
         + Accepted(trace[1..], answers[1..], key, from, to)
  }

  lemma {:induction false} AnswersFit(l: Limits, hits: Hits, trace: seq<Hit>)
    ensures |AnswersUnpruned(l, hits, trace)| == |trace|
    decreases |trace|
  {
    if trace != [] {
      AnswersFit(l, Record(l, hits, trace[0]), trace[1..]);
    }
  }

  ghost function Count(l: Limits, hits: Hits, trace: seq<Hit>, key: string, from: int, to: int): nat {
    AnswersFit(l, hits, trace);
    Accepted(trace, AnswersUnpruned(l, hits, trace), key, from, to)
  }

  /** The first hit of a window is always accepted, even when `max` is below one. */
  function PerWindow(l: Limits): (m: nat)
    ensures m >= 1
  {
    if l.max > 1 then l.max else 1
  }

  function Remaining(l: Limits, e: Entry): nat {
    if l.max > e.count then l.max - e.count else 0
  }

  /** A live counter has counted its first hit. */
  predicate Counting(hits: Hits, key: string, now: int) {
    Live(hits, key, now) ==> hits[key].count >= 1
  }

  /** What `key` can still get in `[from, from + windowMs)` at time `now`, `from <= now`. */
  function Allowance(l: Limits, hits: Hits, key: string, now: int, from: int): nat {
    if now >= from + l.windowMs then 0
    else if !Live(hits, key, now) then PerWindow(l)
    else if hits[key].resetAt >= from + l.windowMs then Remaining(l, hits[key])
    else Remaining(l, hits[key]) + PerWindow(l)
  }

  lemma {:induction false} CountWithinAllowance(l: Limits, hits: Hits, trace: seq<Hit>, key: string, now: int,
      from: int)
    requires l.windowMs >= 1 && Counting(hits, key, now)
    requires from <= now && NotBefore(now, trace) && ClockRuns(trace)
    ensures Count(l, hits, trace, key, from, from + l.windowMs) <= Allowance(l, hits, key, now, from)
    decreases |trace|
  {
    if trace != [] {
      var h := trace[0];
      CountWithinAllowance(l, Record(l, hits, h), trace[1..], key, h.at, from);
    }
  }

  lemma {:induction false} CountInInterval(l: Limits, hits: Hits, trace: seq<Hit>, key: string, from: int)
    requires l.windowMs >= 1 && ClockRuns(trace) && (key in hits ==> hits[key].count >= 1)
    ensures Count(l, hits, trace, key, from, from + l.windowMs) <= 2 * PerWindow(l) - 1
    decreases |trace|
  {
    if trace != [] {
      if trace[0].at < from {
        CountInInterval(l, Record(l, hits, trace[0]), trace[1..], key, from);
      } else {
        CountWithinAllowance(l, hits, trace, key, trace[0].at, from);
      }
    }
  }

  /** In any half-open stretch of one window length, wherever it starts: at most 2 * max - 1 acceptances. */
  lemma AnyIntervalIsBounded(l: Limits, trace: seq<Hit>, key: string, from: int)
    requires l.windowMs >= 1 && ClockRuns(trace)
    ensures |Answers(l, map[], trace)| == |trace|
    ensures Accepted(trace, Answers(l, map[], trace), key, from, from + l.windowMs) <= 2 * PerWindow(l) - 1
  {
    PruningIsInvisible(l, map[], trace);
    AnswersFit(l, map[], trace);
    CountInInterval(l, map[], trace, key, from);
  }

  /** In the window that a hit opens, whatever happened before: at most max. */
  lemma WindowIsBounded(l: Limits, hits: Hits, opening: Hit, more: seq<Hit>)
    requires l.windowMs >= 1 && !Live(hits, opening.key, opening.at)
    requires ClockRuns([opening] + more)
    ensures var trace, from := [opening] + more, opening.at;
            && |Answers(l, hits, trace)| == |trace|
            && Accepted(trace, Answers(l, hits, trace), opening.key, from, from + l.windowMs) <= PerWindow(l)
  {
    PruningIsInvisible(l, hits, [opening] + more);
    AnswersFit(l, hits, [opening] + more);
    CountWithinAllowance(l, hits, [opening] + more, opening.key, opening.at, opening.at);
  }

  // ---- The bound is attained ----

  function Repeat(h: Hit, n: nat): (trace: seq<Hit>)
    ensures |trace| == n && forall i :: 0 <= i < n ==> trace[i] == h
  {
    if n == 0 then [] else [h] + Repeat(h, n - 1)
  }

  lemma {:induction false} CountRepeated(l: Limits, hits: Hits, h: Hit, n: nat, more: seq<Hit>, from: int, to: int)
    requires Live(hits, h.key, h.at) && hits[h.key].count + n <= l.max && from <= h.at < to
    ensures Count(l, hits, Repeat(h, n) + more, h.key, from, to)
            == n + Count(l, hits[h.key := hits[h.key].(count := hits[h.key].count + n)], more, h.key, from, to)
    decreases n
  {
    var all := Repeat(h, n) + more;
    if n == 0 {
      assert all == more && hits[h.key := hits[h.key]] == hits;
    } else {
      var after := Record(l, hits, h);
      CountRepeated(l, after, h, n - 1, more, from, to);
      assert all[1..] == Repeat(h, n - 1) + more;
      assert after[h.key := after[h.key].(count := after[h.key].count + (n - 1))]
          == hits[h.key := hits[h.key].(count := hits[h.key].count + n)];
    }
  }

  /** One early hit, then the rest of the first window at its very end and a full second window after it. */
  function Burst(l: Limits, key: string): seq<Hit>
    requires l.max >= 1
  {
    [Hit(key, 0)] +
      (Repeat(Hit(key, l.windowMs - 1), l.max - 1) + ([Hit(key, l.windowMs)] + Repeat(Hit(key, l.windowMs), l.max - 1)))
  }

  /** A window opened inside the stretch of time lets max hits through. */
  lemma FullWindow(l: Limits, hits: Hits, h: Hit, from: int, to: int)
    requires l.max >= 1 && l.windowMs >= 1 && !Live(hits, h.key, h.at) && from <= h.at < to
    ensures Count(l, hits, [h] + Repeat(h, l.max - 1), h.key, from, to) == l.max
  {
    var all := [h] + Repeat(h, l.max - 1);
    assert all[1..] == Repeat(h, l.max - 1) + [];
    CountRepeated(l, Record(l, hits, h), h, l.max - 1, [], from, to);
  }

  lemma RestOfBurst(l: Limits, hits: Hits, key: string)
    requires l.max >= 1 && l.windowMs >= 2
    requires key in hits && hits[key] == Entry(1, l.windowMs)
    ensures var from := l.windowMs - 1;
            Count(l, hits, Burst(l, key)[1..], key, from, from + l.windowMs) == 2 * l.max - 1
  {
    var from, to := l.windowMs - 1, 2 * l.windowMs - 1;
    var late, next := Hit(key, l.windowMs - 1), Hit(key, l.windowMs);
    var second := [next] + Repeat(next, l.max - 1);
    assert Burst(l, key)[1..] == Repeat(late, l.max - 1) + second;
    CountRepeated(l, hits, late, l.max - 1, second, from, to);
    var used := hits[key := hits[key].(count := hits[key].count + (l.max - 1))];
    assert !Live(used, key, next.at);
    FullWindow(l, used, next, from, to);
  }

  lemma BurstIsOrdered(l: Limits, key: string)
    requires l.max >= 1 && l.windowMs >= 2
    ensures ClockRuns(Burst(l, key))
  {
    var trace := Burst(l, key);
    assert forall i :: 0 <= i < |trace| ==>
      trace[i].at == if i == 0 then 0 else if i < l.max then l.windowMs - 1 else l.windowMs;
  }

  lemma BoundIsAttained(l: Limits, key: string)
    requires l.max >= 1 && l.windowMs >= 2
    ensures ClockRuns(Burst(l, key))
    ensures var from := l.windowMs - 1;
            Count(l, map[], Burst(l, key), key, from, from + l.windowMs) == 2 * l.max - 1
  {
    BurstIsOrdered(l, key);
    RestOfBurst(l, Record(l, map[], Hit(key, 0)), key);
  }
}
