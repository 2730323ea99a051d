/** The login guard: a counter of wrong passwords with a TTL, and a lock key with a TTL of its
    own that the fifth wrong password sets. */
module Lockout {
  import opened Common

  const LOCKOUT_THRESHOLD := 5
  const LOCKOUT_MS := 15 * 60 * 1000

  /** `Wrong` and `LockedNow` are the answers to a wrong password that was compared; `Refused` is
      given without a comparison. */
  datatype Outcome = Unknown | Refused | Wrong | LockedNow | Accepted

  datatype Try = Try(account: string, at: int, correct: bool, outcome: Outcome)

  /** The two Redis keys of one account. */
  datatype Guard = Guard(attempts: Option<Counter>, lockedUntil: Option<int>)

  function Decide(g: Guard, at: int, correct: bool): (Guard, Outcome) {
    if g.lockedUntil.Some? && Live(g.lockedUntil.value, at) then (g, Refused)
    else if correct then (Guard(None, g.lockedUntil), Accepted)
    else
      var attempts := IncrWithExpire(g.attempts, at, LOCKOUT_MS);
      if attempts.count >= LOCKOUT_THRESHOLD
      then (Guard(Some(attempts), Some(at + LOCKOUT_MS)), LockedNow)
      else (Guard(Some(attempts), g.lockedUntil), Wrong)
  }

  /** The keys of `account` after the tries of `log`. */
  ghost function GuardAfter(log: seq<Try>, account: string): Guard {
    if log == [] then Guard(None, None)
    else
      var before, last := GuardAfter(log[..|log| - 1], account), log[|log| - 1];
      if last.account == account && last.outcome != Unknown
      then Decide(before, last.at, last.correct).0 else before
  }

  ghost predicate NoneLater(log: seq<Try>, at: int) {
    forall t <- log :: t.at <= at
  }

  /** The tries come in time order, and each was answered from the keys it found. */
  ghost predicate Faithful(log: seq<Try>) {
    log == [] ||
    var rest, last := log[..|log| - 1], log[|log| - 1];
    && Faithful(rest)
    && NoneLater(rest, last.at)
    && (last.outcome != Unknown ==>
          last.outcome == Decide(GuardAfter(rest, last.account), last.at, last.correct).1)
  }

  /** What one more try does to the keys of each account. */
  lemma RecordTry(log: seq<Try>, t: Try, account: string)
    ensures GuardAfter(log + [t], account)
         == if t.account == account && t.outcome != Unknown
            then Decide(GuardAfter(log, account), t.at, t.correct).0 else GuardAfter(log, account)
  {
  }

  lemma RecordFaithfully(log: seq<Try>, t: Try)
    requires Faithful(log) && NoneLater(log, t.at)
    requires t.outcome != Unknown ==> t.outcome == Decide(GuardAfter(log, t.account), t.at, t.correct).1
    ensures Faithful(log + [t])
  {
  }

  predicate Locks(t: Try, account: string, at: int) {
    t.account == account && t.outcome == LockedNow && at < t.at + LOCKOUT_MS
  }

  /** Some try less than 15 minutes before locked the account. */
  ghost predicate LockedBy(log: seq<Try>, account: string, at: int) {
    exists t <- log :: Locks(t, account, at)
  }

  /** The lock key is live exactly when some try of the log accounts for it. */
  lemma {:induction false} LockIsOfTheLog(log: seq<Try>, account: string, at: int)
    requires Faithful(log)
    ensures var lock := GuardAfter(log, account).lockedUntil;
            && (lock.Some? && Live(lock.value, at) <==> LockedBy(log, account, at))
            && (lock.Some? ==> log != [] && lock.value <= log[|log| - 1].at + LOCKOUT_MS)
  {
    if log != [] {
      var rest, last := log[..|log| - 1], log[|log| - 1];
      LockIsOfTheLog(rest, account, at);
      assert log == rest + [last];
      assert LockedBy(log, account, at) <==> LockedBy(rest, account, at) || Locks(last, account, at);
      if rest != [] {
        assert rest[|rest| - 1] in rest;
      }
    }
  }

  /** In every run: a try on a known account is refused, whatever the password, exactly when a try less
      than 15 minutes earlier locked the account; otherwise it is accepted exactly when the password is
      correct. */
  lemma RefusedIffLocked(log: seq<Try>)
    requires Faithful(log) && log != [] && log[|log| - 1].outcome != Unknown
    ensures var rest, t := log[..|log| - 1], log[|log| - 1];
            && (t.outcome == Refused <==>
                  exists e <- rest :: e.account == t.account && e.outcome == LockedNow && t.at < e.at + LOCKOUT_MS)
            && (t.outcome != Refused ==> (t.outcome == Accepted <==> t.correct))
  {
    var rest, t := log[..|log| - 1], log[|log| - 1];
    LockIsOfTheLog(rest, t.account, t.at);
    assert forall e <- rest :: Locks(e, t.account, t.at) <==>
                                 e.account == t.account && e.outcome == LockedNow && t.at < e.at + LOCKOUT_MS;
  }

  /** The keys of one account in the store. */
  function GuardIn(attempts: map<string, Counter>, locks: map<string, int>, account: string): Guard {
    Guard(if account in attempts then Some(attempts[account]) else None,
          if account in locks then Some(locks[account]) else None)
  }

  ghost predicate Matches(attempts: map<string, Counter>, locks: map<string, int>, log: seq<Try>) {
    forall a :: GuardIn(attempts, locks, a) == GuardAfter(log, a)
  }

  class LoginGuard {
    const accounts: set<string>
    var attempts: map<string, Counter>
    var locks: map<string, int>
    ghost var log: seq<Try>

    ghost predicate Valid()
      reads this
    {
      Faithful(log) && Matches(attempts, locks, log)
    }

    constructor (accounts: set<string>)
      ensures Valid() && log == [] && this.accounts == accounts
    {
      this.accounts, attempts, locks, log := accounts, map[], map[], [];
    }

    /** One login: the lock is looked at before the password is; `correct` is what the password
        comparison says if it comes to that. */
    method Login(account: string, correct: bool, now: int) returns (outcome: Outcome)
      requires Valid() && NoneLater(log, now)
      modifies this
      ensures Valid() && log == old(log) + [Try(account, now, correct, outcome)]
      ensures outcome == Unknown <==> account !in accounts
      ensures account in accounts ==> outcome == Decide(GuardAfter(old(log), account), now, correct).1
      ensures account in accounts ==> (outcome == Refused <==> LockedBy(old(log), account, now))
      ensures account in accounts && outcome != Refused ==> (outcome == Accepted <==> correct)
    {
      ghost var found := GuardIn(attempts, locks, account);
      assert found == GuardAfter(log, account);
      LockIsOfTheLog(log, account, now);
      if account !in accounts {
        outcome := Unknown;
      } else if account in locks && Live(locks[account], now) {
        outcome := Refused;
      } else if !correct {
        var count := IncrWithExpire(if account in attempts then Some(attempts[account]) else None, now, LOCKOUT_MS);
        attempts := attempts[account := count];
        if count.count >= LOCKOUT_THRESHOLD {
          locks := locks[account := now + LOCKOUT_MS];
          outcome := LockedNow;
        } else {
          outcome := Wrong;
        }
      } else {
        attempts := attempts - {account};
        outcome := Accepted;
      }
      ghost var t := Try(account, now, correct, outcome);
      RecordKeeps(old(attempts), old(locks), attempts, locks, log, t);
      log := log + [t];
    }
  }

  /** Keys moved as the guard decides, and only those of the account tried, stay in step with the log. */
  lemma RecordKeeps(attempts: map<string, Counter>, locks: map<string, int>,
                    attempts': map<string, Counter>, locks': map<string, int>, log: seq<Try>, t: Try)
    requires Faithful(log) && NoneLater(log, t.at) && Matches(attempts, locks, log)
    requires t.outcome != Unknown ==> t.outcome == Decide(GuardIn(attempts, locks, t.account), t.at, t.correct).1
    requires GuardIn(attempts', locks', t.account)
          == if t.outcome != Unknown then Decide(GuardIn(attempts, locks, t.account), t.at, t.correct).0
             else GuardIn(attempts, locks, t.account)
    requires attempts' - {t.account} == attempts - {t.account} && locks' - {t.account} == locks - {t.account}
    ensures Faithful(log + [t]) && Matches(attempts', locks', log + [t])
  {
    assert GuardIn(attempts, locks, t.account) == GuardAfter(log, t.account);
    RecordFaithfully(log, t);
    forall a
      ensures GuardIn(attempts', locks', a) == GuardAfter(log + [t], a)
    {
      RecordTry(log, t, a);
      assert GuardIn(attempts, locks, a) == GuardAfter(log, a);
      if a != t.account {
        SameElsewhere(attempts, attempts', t.account, a);
        SameElsewhere(locks, locks', t.account, a);
      }
    }
  }

  lemma SameElsewhere<V>(m: map<string, V>, m': map<string, V>, k: string, a: string)
    requires a != k && m' - {k} == m - {k}
    ensures a in m <==> a in m'
    ensures a in m ==> m[a] == m'[a]
  {
    assert a in m <==> a in m - {k};
    assert a in m' <==> a in m' - {k};
    if a in m {
      assert (m - {k})[a] == m[a] && (m' - {k})[a] == m'[a];
    }
  }

  predicate WrongFrom(t: Try, account: string, lo: int) {
    t.account == account && lo <= t.at < lo + LOCKOUT_MS && t.outcome in {Wrong, LockedNow}
  }

  predicate AcceptedFrom(t: Try, account: string, lo: int) {
    t.account == account && lo <= t.at < lo + LOCKOUT_MS && t.outcome == Accepted
  }

  /** Wrong passwords compared for the account in [lo, lo + 15 min). */
  ghost function WrongIn(log: seq<Try>, account: string, lo: int): nat {
    Count(log, t => WrongFrom(t, account, lo))
  }

  /** Successful logins to the account in [lo, lo + 15 min). */
  ghost function AcceptedIn(log: seq<Try>, account: string, lo: int): nat {
    Count(log, t => AcceptedFrom(t, account, lo))
  }

  /** What every reachable pair of keys satisfies: the counter never passes the threshold, it
      stands there only under a lock that outlives it, and a lock never outlives it by less. */
  ghost predicate GuardOk(g: Guard, at: int) {
    && (g.attempts.Some? ==>
          && 1 <= g.attempts.value.count <= LOCKOUT_THRESHOLD
          && g.attempts.value.expiresAt <= at + LOCKOUT_MS
          && (g.attempts.value.count == LOCKOUT_THRESHOLD ==>
                g.lockedUntil.Some? && g.attempts.value.expiresAt <= g.lockedUntil.value))
    && (g.lockedUntil.Some? ==> g.lockedUntil.value <= at + LOCKOUT_MS)
  }

  lemma DecideKeepsGuardOk(g: Guard, earlier: int, at: int, correct: bool)
    requires GuardOk(g, earlier) && earlier <= at
    ensures GuardOk(Decide(g, at, correct).0, at)
  {
  }

  lemma {:induction false} GuardsStayOk(log: seq<Try>, account: string, at: int)
    requires Faithful(log) && NoneLater(log, at)
    ensures GuardOk(GuardAfter(log, account), at)
  {
    if log != [] {
      var rest, last := log[..|log| - 1], log[|log| - 1];
      GuardsStayOk(rest, account, last.at);
      DecideKeepsGuardOk(GuardAfter(rest, account), last.at, last.at, last.correct);
    }
  }

  /** How the counts of the window are paid for: three comparisons on a counter older than the
      window, four for every success, the present count, and the one that locks. */
  ghost predicate Affordable(g: Guard, lo: int, wrong: nat, accepted: nat) {
    if g.lockedUntil.Some? && g.lockedUntil.value >= lo + LOCKOUT_MS then
      wrong <= 8 + 4 * accepted
    else match g.attempts
      case None => wrong <= 3 + 4 * accepted
      case Some(c) =>
        if c.expiresAt - LOCKOUT_MS >= lo then wrong <= 3 + 4 * accepted + c.count
        else wrong <= if c.count == LOCKOUT_THRESHOLD then 0 else c.count - 1
  }

  lemma DecideStaysAffordable(g: Guard, lo: int, at: int, correct: bool, wrong: nat, accepted: nat)
    requires GuardOk(g, at) && at < lo + LOCKOUT_MS
    requires Affordable(g, lo, wrong, accepted)
    requires at < lo ==> wrong == 0 && accepted == 0
    ensures var (g', outcome) := Decide(g, at, correct);
            Affordable(g', lo, wrong + (if lo <= at && outcome in {Wrong, LockedNow} then 1 else 0),
                       accepted + if lo <= at && outcome == Accepted then 1 else 0)
  {
  }

  lemma {:induction false} RunStaysAffordable(log: seq<Try>, account: string, lo: int)
    requires Faithful(log)
    requires forall t <- log :: t.at < lo + LOCKOUT_MS
    ensures Affordable(GuardAfter(log, account), lo, WrongIn(log, account, lo), AcceptedIn(log, account, lo))
  {
    if log != [] {
      var rest, last := log[..|log| - 1], log[|log| - 1];
      RunStaysAffordable(rest, account, lo);
      assert log == rest + [last];
      CountPush(rest, last, t => WrongFrom(t, account, lo));
      CountPush(rest, last, t => AcceptedFrom(t, account, lo));
      if last.account == account && last.outcome != Unknown {
        GuardsStayOk(rest, account, last.at);
        if last.at < lo {
          CountNone(rest, t => WrongFrom(t, account, lo));
          CountNone(rest, t => AcceptedFrom(t, account, lo));
        }
        DecideStaysAffordable(GuardAfter(rest, account), lo, last.at, last.correct,
                              WrongIn(rest, account, lo), AcceptedIn(rest, account, lo));
      }
    }
  }

  /** In every run, every half-open 15 minutes see at most eight wrong passwords compared for an
      account, and four more for each successful login to it in that time. */
  lemma {:induction false} LockoutBound(log: seq<Try>, account: string, lo: int)
    requires Faithful(log)
    ensures WrongIn(log, account, lo) <= 8 + 4 * AcceptedIn(log, account, lo)
  {
    if log != [] && log[|log| - 1].at >= lo + LOCKOUT_MS {
      LockoutBound(log[..|log| - 1], account, lo);
    } else {
      GuardsStayOk(log, account, lo + LOCKOUT_MS);
      RunStaysAffordable(log, account, lo);
    }
  }

  /** One more wrong password on an account that is not locked. */
  lemma WrongAgain(log: seq<Try>, account: string, at: int, lo: int) returns (log': seq<Try>)
    requires Faithful(log) && NoneLater(log, at)
    requires Decide(GuardAfter(log, account), at, false).1 in {Wrong, LockedNow}
    ensures Faithful(log') && NoneLater(log', at)
    ensures GuardAfter(log', account) == Decide(GuardAfter(log, account), at, false).0
    ensures WrongIn(log', account, lo) == WrongIn(log, account, lo) + if lo <= at < lo + LOCKOUT_MS then 1 else 0
    ensures AcceptedIn(log', account, lo) == AcceptedIn(log, account, lo)
  {
    var t := Try(account, at, false, Decide(GuardAfter(log, account), at, false).1);
    RecordTry(log, t, account);
    RecordFaithfully(log, t);
    CountPush(log, t, t => WrongFrom(t, account, lo));
    CountPush(log, t, t => AcceptedFrom(t, account, lo));
    log' := log + [t];
  }

  /** What a wrong password at `at` counts on from. */
  ghost function CountsFrom(g: Guard, at: int): Counter {
    if g.attempts.Some? && Live(g.attempts.value.expiresAt, at) then g.attempts.value else Counter(0, at + LOCKOUT_MS)
  }

  /** `n` wrong passwords at one instant, the threshold not being passed on the way. */
  lemma {:induction false} WrongBurst(log: seq<Try>, account: string, at: int, n: nat, lo: int)
    returns (log': seq<Try>)
    requires Faithful(log) && NoneLater(log, at) && lo <= at < lo + LOCKOUT_MS
    requires GuardAfter(log, account).lockedUntil.None?
    requires CountsFrom(GuardAfter(log, account), at).count + n <= LOCKOUT_THRESHOLD
    ensures Faithful(log') && NoneLater(log', at)
    ensures var c, g' := CountsFrom(GuardAfter(log, account), at), GuardAfter(log', account);
            && CountsFrom(g', at) == Counter(c.count + n, c.expiresAt)
            && (c.count + n < LOCKOUT_THRESHOLD ==> g'.lockedUntil.None?)
            && (n > 0 ==> g'.attempts.Some? && g'.attempts.value.expiresAt == c.expiresAt)
    ensures WrongIn(log', account, lo) == WrongIn(log, account, lo) + n
    ensures AcceptedIn(log', account, lo) == AcceptedIn(log, account, lo)
  {
    log' := log;
    if n > 0 {
      log' := WrongBurst(log, account, at, n - 1, lo);
      log' := WrongAgain(log', account, at, lo);
    }
  }

  /** A correct password on an account that is not locked. */
  lemma RightOnce(log: seq<Try>, account: string, at: int, lo: int) returns (log': seq<Try>)
    requires Faithful(log) && NoneLater(log, at) && lo <= at < lo + LOCKOUT_MS
    requires GuardAfter(log, account).lockedUntil.None?
    ensures Faithful(log') && NoneLater(log', at)
    ensures GuardAfter(log', account) == Guard(None, None)
    ensures WrongIn(log', account, lo) == WrongIn(log, account, lo)
    ensures AcceptedIn(log', account, lo) == AcceptedIn(log, account, lo) + 1
  {
    var t := Try(account, at, true, Accepted);
    RecordTry(log, t, account);
    RecordFaithfully(log, t);
    CountPush(log, t, t => WrongFrom(t, account, lo));
    CountPush(log, t, t => AcceptedFrom(t, account, lo));
    log' := log + [t];
  }

  /** `s` times over: four wrong passwords and a correct one, from a counter that starts afresh. */
  lemma {:induction false} FoursAndSuccesses(log: seq<Try>, account: string, at: int, s: nat, lo: int)
    returns (log': seq<Try>)
    requires Faithful(log) && NoneLater(log, at) && lo <= at < lo + LOCKOUT_MS
    requires GuardAfter(log, account).lockedUntil.None?
    requires CountsFrom(GuardAfter(log, account), at).count == 0
    ensures Faithful(log') && NoneLater(log', at)
    ensures GuardAfter(log', account).lockedUntil.None? && CountsFrom(GuardAfter(log', account), at).count == 0
    ensures WrongIn(log', account, lo) == WrongIn(log, account, lo) + 4 * s
    ensures AcceptedIn(log', account, lo) == AcceptedIn(log, account, lo) + s
  {
    log' := log;
    if s > 0 {
      log' := FoursAndSuccesses(log, account, at, s - 1, lo);
      log' := WrongBurst(log', account, at, 4, lo);
      log' := RightOnce(log', account, at, lo);
    }
  }

  /** The bound is attained for every number of successes: one wrong password starts the counter,
      three come in its last millisecond, then four before each success and five at the end. */
  lemma LockoutBoundIsAttained(account: string, s: nat) returns (log: seq<Try>)
    ensures Faithful(log)
    ensures AcceptedIn(log, account, LOCKOUT_MS - 1) == s
    ensures WrongIn(log, account, LOCKOUT_MS - 1) == 8 + 4 * s
  {
    var lo := LOCKOUT_MS - 1;
    log := WrongAgain([], account, 0, lo);
    log := WrongBurst(log, account, lo, 3, lo);
    log := FoursAndSuccesses(log, account, LOCKOUT_MS, s, lo);
    log := WrongBurst(log, account, LOCKOUT_MS, 5, lo);
  }
}
