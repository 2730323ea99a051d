/** The sliding-window message limiter: one sorted set of attempt times a user,
    pruned on every attempt and left to expire after a quiet minute. */
module SlidingWindow {
  import opened Common

  const WINDOW_MS := 60 * 1000
  const MESSAGE_MAX := 30

  /** One call of the limiter: who, when, and what it answered. */
  datatype Attempt = Attempt(user: string, at: int, allowed: bool)

  /** The sorted set of one user.  Members carry a random suffix, so every ZADD adds an entry. */
  datatype ZSet = ZSet(scores: seq<int>, expiresAt: int)

  /** ZREMRANGEBYSCORE key -inf cutoff. */
  function Above(scores: seq<int>, cutoff: int): seq<int> {
    if scores == [] then []
    else
      var rest := Above(scores[..|scores| - 1], cutoff);
      if scores[|scores| - 1] > cutoff then rest + [scores[|scores| - 1]] else rest
  }

  /** The reference definition: the times, strictly after `cutoff`, of all attempts
      `user` ever made, refused ones included.  Nothing is ever pruned. */
  ghost function TimesAfter(log: seq<Attempt>, user: string, cutoff: int): seq<int> {
    if log == [] then []
    else
      var rest, last := TimesAfter(log[..|log| - 1], user, cutoff), log[|log| - 1];
      if last.user == user && last.at > cutoff then rest + [last.at] else rest
  }

  /** Attempts come in time order, and every answer is the one the full log up to then calls for. */
  ghost predicate Truthful(log: seq<Attempt>) {
    log == [] ||
    var rest, last := log[..|log| - 1], log[|log| - 1];
    && Truthful(rest)
    && (forall a <- rest :: a.at <= last.at)
    && (last.allowed <==> |TimesAfter(log, last.user, last.at - WINDOW_MS)| <= MESSAGE_MAX)
  }

  /** What the sorted set of `user` holds about the log: every attempt less than two windows older
      than its expiry, which is at least one window after each of them. */
  ghost predicate SetOk(sets: map<string, ZSet>, log: seq<Attempt>, user: string) {
    if user in sets then
      && log != [] && sets[user].expiresAt <= log[|log| - 1].at + WINDOW_MS
      && (forall a <- log :: a.user == user ==> a.at + WINDOW_MS <= sets[user].expiresAt)
      && sets[user].scores == TimesAfter(log, user, sets[user].expiresAt - 2 * WINDOW_MS)
    else
      forall a <- log :: a.user != user
  }

  ghost predicate Represents(sets: map<string, ZSet>, log: seq<Attempt>) {
    forall u :: SetOk(sets, log, u)
  }

  lemma TimesAfterPush(log: seq<Attempt>, a: Attempt, user: string, cutoff: int)
    ensures TimesAfter(log + [a], user, cutoff)
         == TimesAfter(log, user, cutoff) + if a.user == user && a.at > cutoff then [a.at] else []
  {
  }

  /** Pruning the kept times at a later cutoff gives what pruning the whole log gives. */
  lemma {:induction false} PruneAgain(log: seq<Attempt>, user: string, early: int, late: int)
    requires early <= late
    ensures Above(TimesAfter(log, user, early), late) == TimesAfter(log, user, late)
  {
    if log != [] {
      var rest, last := log[..|log| - 1], log[|log| - 1];
      PruneAgain(rest, user, early, late);
      var kept := TimesAfter(rest, user, early);
      assert (kept + [last.at])[..|kept|] == kept;
    }
  }

  lemma {:induction false} NothingAfter(log: seq<Attempt>, user: string, cutoff: int)
    requires forall a <- log :: a.user == user ==> a.at <= cutoff
    ensures TimesAfter(log, user, cutoff) == []
  {
    if log != [] {
      NothingAfter(log[..|log| - 1], user, cutoff);
    }
  }

  lemma {:induction false} LaterCutoffKeepsFewer(log: seq<Attempt>, user: string, early: int, late: int)
    requires early <= late
    ensures |TimesAfter(log, user, late)| <= |TimesAfter(log, user, early)|
  {
    if log != [] {
      LaterCutoffKeepsFewer(log[..|log| - 1], user, early, late);
    }
  }

  /** Recording an attempt with the scores that still count keeps the sets in step with the log. */
  lemma RecordKeeps(sets: map<string, ZSet>, log: seq<Attempt>, a: Attempt)
    requires Truthful(log) && Represents(sets, log)
    requires forall b <- log :: b.at <= a.at
    requires a.allowed <==> |TimesAfter(log + [a], a.user, a.at - WINDOW_MS)| <= MESSAGE_MAX
    ensures Truthful(log + [a])
    ensures Represents(
              sets[a.user := ZSet(TimesAfter(log + [a], a.user, a.at - WINDOW_MS), a.at + WINDOW_MS)], log + [a])
  {
    var log' := log + [a];
    var sets' := sets[a.user := ZSet(TimesAfter(log', a.user, a.at - WINDOW_MS), a.at + WINDOW_MS)];
    assert log'[..|log'| - 1] == log;
    forall u
      ensures SetOk(sets', log', u)
    {
      assert SetOk(sets, log, u);
      if u != a.user && u in sets {
        TimesAfterPush(log, a, u, sets[u].expiresAt - 2 * WINDOW_MS);
      }
    }
  }

  /** What a command on the key of `user` finds at `now`. */
  function Stored(sets: map<string, ZSet>, user: string, now: int): seq<int> {
    if user in sets && Live(sets[user].expiresAt, now) then sets[user].scores else []
  }

  /** After the prune the set holds exactly the attempts that still count: neither the inclusive
      prune nor the expiry of the whole key loses one. */
  lemma KeptScores(sets: map<string, ZSet>, log: seq<Attempt>, user: string, now: int)
    requires SetOk(sets, log, user)
    requires forall a <- log :: a.at <= now
    ensures Above(Stored(sets, user, now), now - WINDOW_MS) == TimesAfter(log, user, now - WINDOW_MS)
  {
    if user in sets && Live(sets[user].expiresAt, now) {
      PruneAgain(log, user, sets[user].expiresAt - 2 * WINDOW_MS, now - WINDOW_MS);
    } else {
      NothingAfter(log, user, now - WINDOW_MS);
    }
  }

  class MessageLimiter {
    var sets: map<string, ZSet>
    ghost var log: seq<Attempt>

    ghost predicate Valid()
      reads this
    {
      Truthful(log) && Represents(sets, log)
    }

    constructor ()
      ensures Valid() && log == []
    {
      sets, log := map[], [];
    }

    /** The pipeline ZREMRANGEBYSCORE, ZADD, ZCARD, EXPIRE.  `Valid` carries the refinement:
        the answer appended to the log is the one the unpruned log calls for. */
    method CheckMessageRateLimit(userId: string, now: int) returns (allowed: bool)
      requires Valid()
      requires forall a <- log :: a.at <= now
      modifies this
      ensures Valid()
      ensures log == old(log) + [Attempt(userId, now, allowed)]
      ensures allowed <==> |TimesAfter(log, userId, now - WINDOW_MS)| <= MESSAGE_MAX
    {
      var cutoff := now - WINDOW_MS;
      KeptScores(sets, log, userId, now);
      var z := Above(Stored(sets, userId, now), cutoff) + [now];
      var count := |z|;
      sets := sets[userId := ZSet(z, now + WINDOW_MS)];
      allowed := count <= MESSAGE_MAX;

      ghost var a := Attempt(userId, now, allowed);
      TimesAfterPush(log, a, userId, cutoff);
      RecordKeeps(old(sets), log, a);
      log := log + [a];
    }
  }

  predicate AllowedIn(a: Attempt, user: string, lo: int) {
    a.user == user && a.allowed && lo <= a.at < lo + WINDOW_MS
  }

  lemma {:induction false} AllowedAreAttempts(log: seq<Attempt>, user: string, lo: int)
    ensures Count(log, a => AllowedIn(a, user, lo)) <= |TimesAfter(log, user, lo - 1)|
  {
    if log != [] {
      AllowedAreAttempts(log[..|log| - 1], user, lo);
    }
  }

  /** At most 30 messages a user pass in any half-open minute, whatever was refused in between. */
  lemma {:induction false} AtMostThirtyAMinute(log: seq<Attempt>, user: string, lo: int)
    requires Truthful(log)
    ensures Count(log, a => AllowedIn(a, user, lo)) <= MESSAGE_MAX
  {
    if log != [] {
      var rest, last := log[..|log| - 1], log[|log| - 1];
      AtMostThirtyAMinute(rest, user, lo);
      if AllowedIn(last, user, lo) {
        AllowedAreAttempts(log, user, lo);
        LaterCutoffKeepsFewer(log, user, last.at - WINDOW_MS, lo - 1);
      }
    }
  }
}
