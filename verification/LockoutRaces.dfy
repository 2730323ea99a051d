/** The login guard when nothing is atomic: the lock check, the comparison, the INCR and the SET of the
    lock are separate steps of each login.  The calls under way for one account differ only in how far
    they are, so the state counts them. */
module LockoutRaces {
  import opened Common
  import opened Lockout

  /** `checked` calls found no lock, `wrong` and `right` ones have compared, `over` ones have been told
      a count at the threshold and are about to set the lock. */
  datatype State = State(attempts: Option<Counter>, lockedUntil: Option<int>,
                         checked: nat, wrong: nat, right: nat, over: nat, now: int)
  {
    function InFlight(): nat {
      checked + wrong + right + over
    }
  }

  datatype Event = Check | Compare(correct: bool) | Incr | Clear | Lock | Tick(to: int)

  predicate Enabled(s: State, e: Event) {
    match e
    case Check => true
    case Compare(_) => s.checked > 0
    case Incr => s.wrong > 0
    case Clear => s.right > 0
    case Lock => s.over > 0
    case Tick(to) => s.now <= to
  }

  predicate Locked(s: State) {
    s.lockedUntil.Some? && Live(s.lockedUntil.value, s.now)
  }

  function Step(s: State, e: Event): State
    requires Enabled(s, e)
  {
    match e
    case Check => if Locked(s) then s else s.(checked := s.checked + 1)
    case Compare(correct) =>
      if correct then s.(checked := s.checked - 1, right := s.right + 1)
      else s.(checked := s.checked - 1, wrong := s.wrong + 1)
    case Incr =>
      var attempts := IncrWithExpire(s.attempts, s.now, LOCKOUT_MS);
      var s1 := s.(attempts := Some(attempts), wrong := s.wrong - 1);
      if attempts.count >= LOCKOUT_THRESHOLD then s1.(over := s.over + 1) else s1
    case Clear => s.(attempts := None, right := s.right - 1)
    case Lock => s.(lockedUntil := Some(s.now + LOCKOUT_MS), over := s.over - 1)
    case Tick(to) => s.(now := to)
  }

  ghost predicate Possible(s: State, es: seq<Event>)
    decreases |es|
  {
    es == [] || (Enabled(s, es[0]) && Possible(Step(s, es[0]), es[1..]))
  }

  /** At no moment of the run are more than `most` logins under way. */
  ghost predicate AtMost(s: State, es: seq<Event>, most: nat)
    requires Possible(s, es)
    decreases |es|
  {
    s.InFlight() <= most && (es == [] || AtMost(Step(s, es[0]), es[1..], most))
  }

  predicate Within(s: State, lo: int) {
    lo <= s.now < lo + LOCKOUT_MS
  }

  /** Wrong passwords compared in [lo, lo + 15 min). */
  ghost function WrongIn(s: State, es: seq<Event>, lo: int): nat
    requires Possible(s, es)
    decreases |es|
  {
    if es == [] then 0
    else (if es[0] == Compare(false) && Within(s, lo) then 1 else 0) + WrongIn(Step(s, es[0]), es[1..], lo)
  }

  /** Successful logins, counted when they clear the counter. */
  ghost function AcceptedIn(s: State, es: seq<Event>, lo: int): nat
    requires Possible(s, es)
    decreases |es|
  {
    if es == [] then 0
    else (if es[0] == Clear && Within(s, lo) then 1 else 0) + AcceptedIn(Step(s, es[0]), es[1..], lo)
  }

  const START := State(None, None, 0, 0, 0, 0, 0)

  /** What the window has seen so far: wrong passwords compared, successes, INCRs answered below the
      threshold, and whether a lock was set. */
  datatype Tally = Tally(wrong: nat, accepted: nat, below: nat, locked: bool)

  function Record(s: State, e: Event, lo: int, t: Tally): Tally
    requires Enabled(s, e)
  {
    if !Within(s, lo) then t
    else match e
      case Compare(correct) => if correct then t else t.(wrong := t.wrong + 1)
      case Incr =>
        if IncrWithExpire(s.attempts, s.now, LOCKOUT_MS).count < LOCKOUT_THRESHOLD then t.(below := t.below + 1) else t
      case Clear => t.(accepted := t.accepted + 1)
      case Lock => t.(locked := true)
      case _ => t
  }

  function Min4(n: nat): nat {
    if n < 4 then n else 4
  }

  /** Below the threshold: three on a counter older than the window, four on the first of the window,
      four more after every success. */
  predicate BelowOk(s: State, lo: int, t: Tally) {
    match s.attempts
    case None => t.below <= 3 + 4 * t.accepted
    case Some(c) =>
      && c.count >= 1 && c.expiresAt <= s.now + LOCKOUT_MS
      && if c.expiresAt - LOCKOUT_MS >= lo then t.below <= 3 + 4 * t.accepted + Min4(c.count)
         else t.below <= Min4(c.count) - 1 && t.accepted == 0
  }

  /** Before a lock of the window every wrong password was answered below the threshold or its call is
      still under way; after one only the calls then under way can compare. */
  predicate TallyOk(s: State, lo: int, most: nat, t: Tally) {
    if s.now < lo then
      t == Tally(0, 0, 0, false) && BelowOk(s, lo, t)
    else if s.now >= lo + LOCKOUT_MS then
      t.wrong <= 7 + 4 * t.accepted + most
    else if t.locked then
      && s.lockedUntil.Some? && s.lockedUntil.value >= lo + LOCKOUT_MS
      && t.wrong + s.checked <= 7 + 4 * t.accepted + most
    else
      && BelowOk(s, lo, t)
      && t.below <= 7 + 4 * t.accepted
      && t.wrong <= t.below + s.wrong + s.over
  }

  lemma StepKeepsTally(s: State, e: Event, lo: int, most: nat, t: Tally)
    requires Enabled(s, e) && s.InFlight() <= most && TallyOk(s, lo, most, t)
    ensures TallyOk(Step(s, e), lo, most, Record(s, e, lo, t))
  {
  }

  lemma {:induction false} RunKeepsTally(s: State, es: seq<Event>, lo: int, most: nat, t: Tally)
    requires Possible(s, es) && AtMost(s, es, most) && TallyOk(s, lo, most, t)
    ensures t.wrong + WrongIn(s, es, lo) <= 7 + 4 * (t.accepted + AcceptedIn(s, es, lo)) + most
    decreases |es|
  {
    if es != [] {
      StepKeepsTally(s, es[0], lo, most, t);
      RunKeepsTally(Step(s, es[0]), es[1..], lo, most, Record(s, es[0], lo, t));
    }
  }

  /** In every interleaving with at most `most` logins under way at a time, any half-open 15 minutes see
      at most 7 + `most` wrong passwords compared, and four more for each success: eight when logins
      come one at a time. */
  lemma RaceBound(es: seq<Event>, lo: int, most: nat)
    requires Possible(START, es) && AtMost(START, es, most)
    ensures WrongIn(START, es, lo) <= 7 + 4 * AcceptedIn(START, es, lo) + most
  {
    RunKeepsTally(START, es, lo, most, Tally(0, 0, 0, false));
  }

  /** With nothing in between, the steps of one login come to the atomic login. */
  lemma SerialIsAtomic(s: State, correct: bool)
    requires s.InFlight() == 0
    ensures var (g, outcome) := Decide(Guard(s.attempts, s.lockedUntil), s.now, correct);
            var done := s.(attempts := g.attempts, lockedUntil := g.lockedUntil);
            match outcome
            case Refused => Step(s, Check) == s == done
            case Accepted => Step(Step(Step(s, Check), Compare(true)), Clear) == done
            case Wrong => Step(Step(Step(s, Check), Compare(false)), Incr) == done
            case LockedNow => Step(Step(Step(Step(s, Check), Compare(false)), Incr), Lock) == done
            case Unknown => false
  {
  }

  /* The bound is exact. */

  lemma Cons(s: State, e: Event, es: seq<Event>, lo: int, most: nat)
    requires Enabled(s, e) && Possible(Step(s, e), es)
    ensures Possible(s, [e] + es)
    ensures AtMost(Step(s, e), es, most) && s.InFlight() <= most ==> AtMost(s, [e] + es, most)
    ensures WrongIn(s, [e] + es, lo)
         == (if e == Compare(false) && Within(s, lo) then 1 else 0) + WrongIn(Step(s, e), es, lo)
    ensures AcceptedIn(s, [e] + es, lo)
         == (if e == Clear && Within(s, lo) then 1 else 0) + AcceptedIn(Step(s, e), es, lo)
  {
    assert ([e] + es)[1..] == es;
  }

  /** Nobody is under way and the account is not locked. */
  predicate Quiet(s: State) {
    s.InFlight() == 0 && s.lockedUntil.None?
  }

  /** A whole login with a wrong password below the threshold, before whatever follows. */
  lemma ConsWrong(s: State, es: seq<Event>, lo: int, most: nat) returns (es': seq<Event>)
    requires Quiet(s) && most >= 1
    requires var c := IncrWithExpire(s.attempts, s.now, LOCKOUT_MS);
             && c.count < LOCKOUT_THRESHOLD
             && Possible(s.(attempts := Some(c)), es) && AtMost(s.(attempts := Some(c)), es, most)
    ensures var c := IncrWithExpire(s.attempts, s.now, LOCKOUT_MS);
            && Possible(s, es') && AtMost(s, es', most)
            && WrongIn(s, es', lo) == (if Within(s, lo) then 1 else 0) + WrongIn(s.(attempts := Some(c)), es, lo)
            && AcceptedIn(s, es', lo) == AcceptedIn(s.(attempts := Some(c)), es, lo)
  {
    var s1 := Step(s, Check);
    var s2 := Step(s1, Compare(false));
    assert Step(s2, Incr) == s.(attempts := Some(IncrWithExpire(s.attempts, s.now, LOCKOUT_MS)));
    Cons(s2, Incr, es, lo, most);
    Cons(s1, Compare(false), [Incr] + es, lo, most);
    Cons(s, Check, [Compare(false)] + ([Incr] + es), lo, most);
    es' := [Check] + ([Compare(false)] + ([Incr] + es));
  }

  lemma ConsRight(s: State, es: seq<Event>, lo: int, most: nat) returns (es': seq<Event>)
    requires Quiet(s) && most >= 1
    requires Possible(s.(attempts := None), es) && AtMost(s.(attempts := None), es, most)
    ensures Possible(s, es') && AtMost(s, es', most)
    ensures WrongIn(s, es', lo) == WrongIn(s.(attempts := None), es, lo)
    ensures AcceptedIn(s, es', lo) == (if Within(s, lo) then 1 else 0) + AcceptedIn(s.(attempts := None), es, lo)
  {
    var s1 := Step(s, Check);
    var s2 := Step(s1, Compare(true));
    assert Step(s2, Clear) == s.(attempts := None);
    Cons(s2, Clear, es, lo, most);
    Cons(s1, Compare(true), [Clear] + es, lo, most);
    Cons(s, Check, [Compare(true)] + ([Clear] + es), lo, most);
    es' := [Check] + ([Compare(true)] + ([Clear] + es));
  }

  /** `more` further logins find no lock, and only then do all of them compare. */
  lemma {:induction false} Crowd(s: State, more: nat, lo: int, most: nat) returns (es: seq<Event>)
    requires s.lockedUntil.None? && Within(s, lo) && s.InFlight() + more <= most
    ensures Possible(s, es) && AtMost(s, es, most)
    ensures WrongIn(s, es, lo) == s.checked + more && AcceptedIn(s, es, lo) == 0
    decreases more, s.checked
  {
    if more > 0 {
      es := Crowd(Step(s, Check), more - 1, lo, most);
      Cons(s, Check, es, lo, most);
      es := [Check] + es;
    } else if s.checked > 0 {
      es := Crowd(Step(s, Compare(false)), 0, lo, most);
      Cons(s, Compare(false), es, lo, most);
      es := [Compare(false)] + es;
    } else {
      es := [];
    }
  }

  /** The counter stands at `count`, and lapses no earlier than the window ends. */
  predicate CountsFrom(s: State, count: nat) {
    if count == 0 then s.attempts.None? || !Live(s.attempts.value.expiresAt, s.now)
    else s.attempts.Some? && s.attempts.value.count == count && Live(s.attempts.value.expiresAt, s.now)
  }

  /** Fill the counter up to four, succeed, `successes` times over, fill it again and let a crowd in. */
  lemma {:induction false} FillUp(s: State, count: nat, successes: nat, lo: int, most: nat) returns (es: seq<Event>)
    requires Quiet(s) && Within(s, lo) && CountsFrom(s, count) && count <= 4 && most >= 1
    ensures Possible(s, es) && AtMost(s, es, most)
    ensures WrongIn(s, es, lo) == 4 - count + 4 * successes + most && AcceptedIn(s, es, lo) == successes
    decreases successes, 4 - count
  {
    if count < 4 {
      var c := IncrWithExpire(s.attempts, s.now, LOCKOUT_MS);
      es := FillUp(s.(attempts := Some(c)), count + 1, successes, lo, most);
      es := ConsWrong(s, es, lo, most);
    } else if successes > 0 {
      es := FillUp(s.(attempts := None), 0, successes - 1, lo, most);
      es := ConsRight(s, es, lo, most);
    } else {
      es := Crowd(s, most, lo, most);
    }
  }

  /** `n` wrong passwords in the last millisecond of a counter that started before the window. */
  lemma {:induction false} LastMillisecond(s: State, n: nat, successes: nat, most: nat) returns (es: seq<Event>)
    requires Quiet(s) && most >= 1 && n <= 3
    requires s.attempts == Some(Counter(4 - n, s.now + 1))
    ensures Possible(s, es) && AtMost(s, es, most)
    ensures WrongIn(s, es, s.now) == n + 4 + 4 * successes + most
    ensures AcceptedIn(s, es, s.now) == successes
    decreases n
  {
    var lo := s.now;
    if n > 0 {
      es := LastMillisecond(s.(attempts := Some(Counter(4 - n + 1, lo + 1))), n - 1, successes, most);
      es := ConsWrong(s, es, lo, most);
    } else {
      es := FillUp(Step(s, Tick(lo + 1)), 0, successes, lo, most);
      Cons(s, Tick(lo + 1), es, lo, most);
      es := [Tick(lo + 1)] + es;
    }
  }

  /** From any state with nobody under way, no lock and no counter, such as the start: for every number
      of logins under way and of successes some run attains the bound. */
  lemma RaceBoundIsAttained(s: State, most: nat, successes: nat) returns (es: seq<Event>)
    requires Quiet(s) && s.attempts.None? && most >= 1
    ensures Possible(s, es) && AtMost(s, es, most)
    ensures AcceptedIn(s, es, s.now + LOCKOUT_MS - 1) == successes
    ensures WrongIn(s, es, s.now + LOCKOUT_MS - 1) == 7 + 4 * successes + most
  {
    var lo := s.now + LOCKOUT_MS - 1;
    var s1 := s.(attempts := Some(Counter(1, s.now + LOCKOUT_MS)));
    es := LastMillisecond(Step(s1, Tick(lo)), 3, successes, most);
    Cons(s1, Tick(lo), es, lo, most);
    es := ConsWrong(s, [Tick(lo)] + es, lo, most);
  }
}
