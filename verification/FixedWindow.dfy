/** The fixed-window request limiter: a counter a key, started by its first request
    and dropped when its TTL runs out. */
module FixedWindow {
  import opened Common

  /** One request seen by the limiter, and whether it was passed on. */
  datatype Hit = Hit(key: string, at: int, passed: bool)

  /** The counter of `key` after the requests of `log`. */
  ghost function CounterAfter(log: seq<Hit>, key: string, windowMs: int): Option<Counter> {
    if log == [] then None
    else
      var before, last := CounterAfter(log[..|log| - 1], key, windowMs), log[|log| - 1];
      if last.key == key then Some(IncrWithExpire(before, last.at, windowMs)) else before
  }

  /** The requests come in time order and each was passed iff its count was within `max`. */
  ghost predicate Faithful(log: seq<Hit>, windowMs: int, max: int) {
    log == [] ||
    var rest, last := log[..|log| - 1], log[|log| - 1];
    && Faithful(rest, windowMs, max)
    && (forall h <- rest :: h.at <= last.at)
    && (last.passed <==> IncrWithExpire(CounterAfter(rest, last.key, windowMs), last.at, windowMs).count <= max)
  }

  class RateLimiter {
    const windowMs: int
    const max: int
    var counters: map<string, Counter>
    ghost var log: seq<Hit>

    ghost predicate Valid()
      reads this
    {
      && Faithful(log, windowMs, max)
      && forall k :: CounterAfter(log, k, windowMs) == if k in counters then Some(counters[k]) else None
    }

    constructor (windowSec: nat, max: int)
      ensures Valid() && log == [] && this.windowMs == 1000 * windowSec && this.max == max
    {
      windowMs, this.max := 1000 * windowSec, max;
      counters, log := map[], [];
    }

    /** The middleware: count the request, refuse it when the count is over `max`. */
    method Limit(key: string, now: int) returns (passed: bool)
      requires Valid()
      requires forall h <- log :: h.at <= now
      modifies this
      ensures Valid() && log == old(log) + [Hit(key, now, passed)]
      ensures passed <==> CounterAfter(log, key, windowMs).value.count <= max
    {
      var counter := IncrWithExpire(if key in counters then Some(counters[key]) else None, now, windowMs);
      counters := counters[key := counter];
      passed := counter.count <= max;
      ghost var log' := log + [Hit(key, now, passed)];
      assert log'[..|log'| - 1] == log;
      log := log';
    }
  }

  predicate PassedIn(h: Hit, key: string, lo: int, hi: int) {
    h.key == key && h.passed && lo <= h.at < hi
  }

  /** How many requests of `key` were passed in [lo, hi). */
  ghost function Passed(log: seq<Hit>, key: string, lo: int, hi: int): nat {
    Count(log, h => PassedIn(h, key, lo, hi))
  }

  function Min(a: int, b: int): int {
    if a < b then a else b
  }

  /** The counter lifetime that began at `start` is, among those begun at or after `lo`, number
      (start - lo) / W at most, because lifetimes begin at least W apart. */
  ghost function Budget(counter: Option<Counter>, lo: int, windowMs: int, max: int): int
    requires windowMs > 0
  {
    match counter
    case None => 0
    case Some(c) =>
      var start := c.expiresAt - windowMs;
      if start < lo then Min(c.count, max) - 1
      else (max - 1) + max * ((start - lo) / windowMs) + Min(c.count, max)
  }

  /** One more request of the key: what it may add to the passed ones, the budget gains too. */
  lemma BudgetStep(before: Option<Counter>, at: int, lo: int, windowMs: int, max: int, passedSoFar: nat)
    requires windowMs > 0 && max >= 1
    requires before.Some? ==> before.value.count >= 1 && before.value.expiresAt <= at + windowMs
    requires passedSoFar <= Budget(before, lo, windowMs, max)
    requires at < lo ==> passedSoFar == 0
    ensures var after := IncrWithExpire(before, at, windowMs);
            passedSoFar + (if after.count <= max && lo <= at then 1 else 0) <= Budget(Some(after), lo, windowMs, max)
  {
    if at >= lo && !(before.Some? && Live(before.value.expiresAt, at)) {
      var j := (at - lo) / windowMs;
      DivMono(0, at - lo, windowMs);
      MulMono(max, 0, j);
      if before.Some? && before.value.expiresAt - windowMs >= lo {
        var i := (before.value.expiresAt - windowMs - lo) / windowMs;
        DivStep(before.value.expiresAt - windowMs - lo, at - lo, windowMs);
        MulMono(max, i + 1, j);
        assert max * (i + 1) == max * i + max;
      }
    }
  }

  lemma {:induction false} PassedWithinBudget(log: seq<Hit>, key: string, lo: int, hi: int, windowMs: int, max: int)
    requires windowMs > 0 && max >= 1 && Faithful(log, windowMs, max)
    requires forall h <- log :: h.at < hi
    ensures var c := CounterAfter(log, key, windowMs);
            && Passed(log, key, lo, hi) <= Budget(c, lo, windowMs, max)
            && (c.Some? ==> log != [] && c.value.count >= 1 && c.value.expiresAt <= log[|log| - 1].at + windowMs)
  {
    if log != [] {
      var rest, last := log[..|log| - 1], log[|log| - 1];
      PassedWithinBudget(rest, key, lo, hi, windowMs, max);
      if last.key == key {
        if last.at < lo {
          CountNone(rest, h => PassedIn(h, key, lo, hi));
        }
        BudgetStep(CounterAfter(rest, key, windowMs), last.at, lo, windowMs, max,
                   Passed(rest, key, lo, hi));
      }
    }
  }

  /** The counter's lifetime holds as many requests of the key as it counts, and the first `max` of
      them passed. */
  lemma {:induction false} CounterIsFull(log: seq<Hit>, key: string, windowMs: int, max: int, hi: int)
    requires windowMs > 0 && Faithful(log, windowMs, max) && forall h <- log :: h.at < hi
    ensures var c := CounterAfter(log, key, windowMs);
            c.Some? ==>
              && c.value.count >= 1
              && Passed(log, key, c.value.expiresAt - windowMs, hi) >= Min(c.value.count, max)
  {
    if log != [] {
      var rest, last := log[..|log| - 1], log[|log| - 1];
      CounterIsFull(rest, key, windowMs, max, hi);
      assert log == rest + [last];
      var c := CounterAfter(log, key, windowMs);
      if c.Some? {
        CountPush(rest, last, h => PassedIn(h, key, c.value.expiresAt - windowMs, hi));
        if last.key == key {
          CounterIsYoung(rest, key, windowMs, max);
        }
      }
    }
  }

  lemma {:induction false} CounterIsYoung(log: seq<Hit>, key: string, windowMs: int, max: int)
    requires windowMs > 0 && Faithful(log, windowMs, max)
    ensures var c := CounterAfter(log, key, windowMs);
            c.Some? ==> log != [] && c.value.expiresAt <= log[|log| - 1].at + windowMs
  {
    if log != [] {
      CounterIsYoung(log[..|log| - 1], key, windowMs, max);
      if log[..|log| - 1] != [] {
        assert log[|log| - 2] == log[..|log| - 1][|log| - 2];
      }
    }
  }

  /** Nobody is refused needlessly: when a request is refused, `max` requests of its key have passed in
      the window length up to it, that is in (at - W, at]. */
  lemma RefusedOnlyWhenFull(log: seq<Hit>, windowMs: int, max: int)
    requires windowMs > 0 && max >= 0 && Faithful(log, windowMs, max) && log != [] && !log[|log| - 1].passed
    ensures var h := log[|log| - 1]; Passed(log, h.key, h.at - windowMs + 1, h.at + 1) >= max
  {
    var h := log[|log| - 1];
    CounterIsFull(log, h.key, windowMs, max, h.at + 1);
    var start := CounterAfter(log, h.key, windowMs).value.expiresAt - windowMs;
    assert start >= h.at - windowMs + 1;
    PassedMono(log, h.key, start, h.at - windowMs + 1, h.at + 1);
  }

  lemma {:induction false} PassedMono(log: seq<Hit>, key: string, late: int, early: int, hi: int)
    requires early <= late
    ensures Passed(log, key, late, hi) <= Passed(log, key, early, hi)
  {
    if log != [] {
      PassedMono(log[..|log| - 1], key, late, early, hi);
    }
  }

  /** How many windows of `windowMs` it takes to cover `length`. */
  function CeilDiv(length: int, windowMs: int): int
    requires length >= 1 && windowMs > 0
  {
    (length - 1) / windowMs + 1
  }

  /** A lifetime begun before lo + length has budget for no more than the stated bound. */
  lemma BudgetCap(c: Option<Counter>, lo: int, length: int, windowMs: int, max: int)
    requires windowMs > 0 && max >= 1 && length >= 1
    requires c.Some? ==> c.value.expiresAt - windowMs < lo + length
    ensures Budget(c, lo, windowMs, max) <= max * (CeilDiv(length, windowMs) + 1) - 1
  {
    var k := (length - 1) / windowMs;
    assert max * (k + 2) == max * k + 2 * max;
    DivMono(0, length - 1, windowMs);
    MulMono(max, 0, k);
    if c.Some? && c.value.expiresAt - windowMs >= lo {
      DivMono(c.value.expiresAt - windowMs - lo, length - 1, windowMs);
      MulMono(max, (c.value.expiresAt - windowMs - lo) / windowMs, k);
    }
  }

  /** Faithful logs are ordered, so the last request bounds all of them. */
  lemma LastIsLatest(log: seq<Hit>, hi: int, windowMs: int, max: int)
    requires Faithful(log, windowMs, max)
    requires log != [] ==> log[|log| - 1].at < hi
    ensures forall h <- log :: h.at < hi
  {
  }

  /** For every window [lo, lo + length): at most max * (ceil(length / W) + 1) - 1 requests of a key pass. */
  lemma {:induction false} FixedWindowBound(log: seq<Hit>, key: string, lo: int, length: int, windowMs: int, max: int)
    requires windowMs > 0 && max >= 1 && length >= 1 && Faithful(log, windowMs, max)
    ensures Passed(log, key, lo, lo + length) <= max * (CeilDiv(length, windowMs) + 1) - 1
  {
    if log != [] && log[|log| - 1].at >= lo + length {
      FixedWindowBound(log[..|log| - 1], key, lo, length, windowMs, max);
    } else {
      LastIsLatest(log, lo + length, windowMs, max);
      PassedWithinBudget(log, key, lo, lo + length, windowMs, max);
      BudgetCap(CounterAfter(log, key, windowMs), lo, length, windowMs, max);
    }
  }

  /** In particular 2 * max - 1 in any window as long as the limiter's own: 19 for ten
      authentication attempts in 15 minutes, 5 for three resend or forgot requests an hour. */
  lemma OneWindowBound(log: seq<Hit>, key: string, lo: int, windowMs: int, max: int)
    requires windowMs > 0 && max >= 1 && Faithful(log, windowMs, max)
    ensures Passed(log, key, lo, lo + windowMs) <= 2 * max - 1
  {
    FixedWindowBound(log, key, lo, windowMs, windowMs, max);
    assert (windowMs - 1) / windowMs == 0;
  }

  /** When the counter of the key lapses, or has lapsed. */
  ghost function EndsAt(log: seq<Hit>, key: string, windowMs: int): int {
    var c := CounterAfter(log, key, windowMs);
    if c.Some? then c.value.expiresAt else -1
  }

  /** How many requests of the current window a request at `at` finds. */
  ghost function Found(log: seq<Hit>, key: string, at: int, windowMs: int): nat {
    var c := CounterAfter(log, key, windowMs);
    if c.Some? && Live(c.value.expiresAt, at) then c.value.count else 0
  }

  ghost predicate FaithfulUpTo(log: seq<Hit>, windowMs: int, max: int, at: int) {
    Faithful(log, windowMs, max) && forall h <- log :: h.at <= at
  }

  /** One request within the quota. */
  lemma OnePasses(log: seq<Hit>, key: string, at: int, windowMs: int, max: int, lo: int, hi: int)
    requires windowMs > 0 && at >= 0 && FaithfulUpTo(log, windowMs, max, at)
    requires Found(log, key, at, windowMs) < max
    ensures var after := log + [Hit(key, at, true)];
            && FaithfulUpTo(after, windowMs, max, at)
            && Found(after, key, at, windowMs) == Found(log, key, at, windowMs) + 1
            && (EndsAt(after, key, windowMs)
                == if EndsAt(log, key, windowMs) > at then EndsAt(log, key, windowMs) else at + windowMs)
            && Passed(after, key, lo, hi) == Passed(log, key, lo, hi) + if lo <= at < hi then 1 else 0
  {
  }

  /** `n` requests of one key at one instant, within the quota: all pass, and the window they fall
      in ends when it did. */
  lemma {:induction false} BurstPasses(log: seq<Hit>, key: string, at: int, n: nat, windowMs: int, max: int,
                                       lo: int, hi: int)
    returns (after: seq<Hit>)
    requires windowMs > 0 && at >= 0 && FaithfulUpTo(log, windowMs, max, at)
    requires lo <= at < hi && Found(log, key, at, windowMs) + n <= max
    ensures FaithfulUpTo(after, windowMs, max, at)
    ensures Found(after, key, at, windowMs) == Found(log, key, at, windowMs) + n
    ensures Passed(after, key, lo, hi) == Passed(log, key, lo, hi) + n
    ensures EndsAt(log, key, windowMs) > at ==> EndsAt(after, key, windowMs) == EndsAt(log, key, windowMs)
  {
    if n == 0 {
      after := log;
    } else {
      var before := BurstPasses(log, key, at, n - 1, windowMs, max, lo, hi);
      OnePasses(before, key, at, windowMs, max, lo, hi);
      after := before + [Hit(key, at, true)];
    }
  }

  /** The bound for one window length is attained: one request opens a window, the rest of the
      quota comes in its last millisecond and a full quota right after it lapses. */
  lemma WindowBoundIsAttained(key: string, windowMs: int, max: int) returns (log: seq<Hit>)
    requires windowMs >= 2 && max >= 1
    ensures Faithful(log, windowMs, max)
    ensures Passed(log, key, windowMs - 1, windowMs - 1 + windowMs) == 2 * max - 1
  {
    var lo, hi := windowMs - 1, windowMs - 1 + windowMs;
    OnePasses([], key, 0, windowMs, max, lo, hi);
    log := BurstPasses([] + [Hit(key, 0, true)], key, lo, max - 1, windowMs, max, lo, hi);
    log := BurstPasses(log, key, windowMs, max, windowMs, max, lo, hi);
  }
}
