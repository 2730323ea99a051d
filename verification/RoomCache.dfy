/** The cache of one room when nothing is atomic: a fill is a GET, a database read and a SET, a
    writer's database write and DEL are separate steps, and all of them interleave. */
module RoomCache {
  import opened Common
  import opened Rooms

  /** A fill between its commands: it missed, or it read a value at a time. */
  datatype Fill = Missed | HasRead(value: RoomResponse, at: int)

  /** What the database held after a step, and when; `settled` says that no write that changed the
      value is newer than the last invalidation. */
  datatype Moment = Moment(at: int, stored: Option<RoomResponse>, settled: bool)

  /** What getRoomById returned, when, and in which step. */
  datatype Answer = Answer(at: int, step: nat, value: RoomResponse)

  /** `past` has a moment for the start and one for every step; `answers` what getRoomById returned. */
  datatype State = State(stored: Option<RoomResponse>, cache: Option<CacheEntry>, fills: map<nat, Fill>,
                         now: int, settled: bool, past: seq<Moment>, answers: seq<Answer>)

  datatype Event =
    | Get(c: nat)
    | Read(c: nat)
    | Set(c: nat)
    | Write(value: Option<RoomResponse>)
    | Del
    | Tick(to: int)

  /** A call issues its commands in order; `longest` bounds the time from a read to its SET. */
  predicate Enabled(s: State, e: Event, longest: nat) {
    match e
    case Get(c) => c !in s.fills
    case Read(c) => c in s.fills && s.fills[c].Missed?
    case Set(c) => c in s.fills && s.fills[c].HasRead? && s.now <= s.fills[c].at + longest
    case Tick(to) => s.now <= to
    case _ => true
  }

  function Act(s: State, e: Event, longest: nat): State
    requires Enabled(s, e, longest)
  {
    match e
    case Get(c) =>
      if s.cache.Some? && Live(s.cache.value.expiresAt, s.now)
      then s.(answers := s.answers + [Answer(s.now, |s.past|, s.cache.value.value)])
      else s.(fills := s.fills[c := Missed])
    case Read(c) =>
      if s.stored.None? then s.(fills := s.fills - {c})
      else s.(fills := s.fills[c := HasRead(s.stored.value, s.now)])
    case Set(c) =>
      var value := s.fills[c].value;
      s.(cache := Some(CacheEntry(value, s.now + ROOM_CACHE_MS)), fills := s.fills - {c},
         answers := s.answers + [Answer(s.now, |s.past|, value)])
    case Write(value) => s.(stored := value, settled := s.settled && value == s.stored)
    case Del => s.(cache := None, settled := true)
    case Tick(to) => s.(now := to)
  }

  function Step(s: State, e: Event, longest: nat): State
    requires Enabled(s, e, longest)
  {
    var s' := Act(s, e, longest);
    s'.(past := s'.past + [Moment(s'.now, s'.stored, s'.settled)])
  }

  ghost predicate Possible(s: State, es: seq<Event>, longest: nat)
    decreases |es|
  {
    es == [] || (Enabled(s, es[0], longest) && Possible(Step(s, es[0], longest), es[1..], longest))
  }

  ghost function Run(s: State, es: seq<Event>, longest: nat): State
    requires Possible(s, es, longest)
    decreases |es|
  {
    if es == [] then s else Run(Step(s, es[0], longest), es[1..], longest)
  }

  /** The database held `value` after some step before number `step`, no earlier than `since`. */
  ghost predicate WasCurrent(past: seq<Moment>, step: nat, value: RoomResponse, since: int) {
    exists i :: 0 <= i < step && i < |past| && past[i].stored == Some(value) && since <= past[i].at
  }

  ghost predicate FillOk(s: State, c: nat) {
    c in s.fills && s.fills[c].HasRead? ==> WasCurrent(s.past, |s.past|, s.fills[c].value, s.fills[c].at)
  }

  ghost predicate AnswerOk(past: seq<Moment>, a: Answer, longest: nat) {
    a.step <= |past| && WasCurrent(past, a.step, a.value, a.at - ROOM_CACHE_MS - longest)
  }

  ghost predicate EntryOk(s: State, longest: nat) {
    s.cache.Some? ==>
      WasCurrent(s.past, |s.past|, s.cache.value.value, s.cache.value.expiresAt - ROOM_CACHE_MS - longest)
  }

  /** Whatever is cached, about to be cached or was answered was current recently enough. */
  ghost predicate FreshEnough(s: State, longest: nat) {
    && s.past != [] && s.past[|s.past| - 1] == Moment(s.now, s.stored, s.settled)
    && EntryOk(s, longest)
    && (forall c :: FillOk(s, c))
    && (forall a <- s.answers :: AnswerOk(s.past, a, longest))
  }

  lemma StillWasCurrent(past: seq<Moment>, m: Moment, step: nat, step': nat, value: RoomResponse, since: int, earlier: int)
    requires WasCurrent(past, step, value, since) && earlier <= since && step <= step'
    ensures WasCurrent(past + [m], step', value, earlier)
  {
    var i :| 0 <= i < step && i < |past| && past[i].stored == Some(value) && since <= past[i].at;
    assert (past + [m])[i] == past[i];
  }

  lemma FillStaysOk(s: State, e: Event, longest: nat, c: nat)
    requires FreshEnough(s, longest) && Enabled(s, e, longest)
    ensures FillOk(Step(s, e, longest), c)
  {
    var s' := Step(s, e, longest);
    var n := |s.past|;
    assert FillOk(s, c);
    if c in s'.fills && s'.fills[c].HasRead? {
      if e == Read(c) {
        assert s'.past[n - 1] == s.past[n - 1];
      } else {
        StillWasCurrent(s.past, s'.past[n], n, n + 1, s.fills[c].value, s.fills[c].at, s.fills[c].at);
      }
    }
  }

  lemma EntryStaysOk(s: State, e: Event, longest: nat)
    requires FreshEnough(s, longest) && Enabled(s, e, longest)
    ensures EntryOk(Step(s, e, longest), longest)
  {
    var s' := Step(s, e, longest);
    var n := |s.past|;
    if e.Set? {
      assert FillOk(s, e.c);
      StillWasCurrent(s.past, s'.past[n], n, n + 1, s.fills[e.c].value, s.fills[e.c].at, s.now - longest);
    } else if s'.cache.Some? {
      var since := s.cache.value.expiresAt - ROOM_CACHE_MS - longest;
      StillWasCurrent(s.past, s'.past[n], n, n + 1, s.cache.value.value, since, since);
    }
  }

  lemma AnswersStayOk(s: State, e: Event, longest: nat, a: Answer)
    requires FreshEnough(s, longest) && Enabled(s, e, longest) && a in Step(s, e, longest).answers
    ensures AnswerOk(Step(s, e, longest).past, a, longest)
  {
    var m, n := Step(s, e, longest).past[|s.past|], |s.past|;
    var since := a.at - ROOM_CACHE_MS - longest;
    if a in s.answers {
      assert AnswerOk(s.past, a, longest);
      StillWasCurrent(s.past, m, a.step, a.step, a.value, since, since);
    } else if e.Get? {
      StillWasCurrent(s.past, m, n, n, a.value, s.cache.value.expiresAt - ROOM_CACHE_MS - longest, since);
    } else {
      assert FillOk(s, e.c);
      StillWasCurrent(s.past, m, n, n, a.value, s.fills[e.c].at, since);
    }
  }

  lemma StepStaysFresh(s: State, e: Event, longest: nat)
    requires FreshEnough(s, longest) && Enabled(s, e, longest)
    ensures FreshEnough(Step(s, e, longest), longest)
  {
    var s' := Step(s, e, longest);
    forall c
      ensures FillOk(s', c)
    {
      FillStaysOk(s, e, longest, c);
    }
    EntryStaysOk(s, e, longest);
    forall a <- s'.answers
      ensures AnswerOk(s'.past, a, longest)
    {
      AnswersStayOk(s, e, longest, a);
    }
  }

  lemma {:induction false} RunStaysFresh(s: State, es: seq<Event>, longest: nat)
    requires FreshEnough(s, longest) && Possible(s, es, longest)
    ensures FreshEnough(Run(s, es, longest), longest)
    decreases |es|
  {
    if es != [] {
      StepStaysFresh(s, es[0], longest);
      RunStaysFresh(Step(s, es[0], longest), es[1..], longest);
    }
  }

  function Start(stored: Option<RoomResponse>): State {
    State(stored, None, map[], 0, true, [Moment(0, stored, true)], [])
  }

  /** In every interleaving of fills, hits and writers, every value getRoomById returned was the
      stored one at an earlier step, no longer ago than the cache TTL plus the longest fill. */
  lemma AnswersWereCurrent(stored: Option<RoomResponse>, es: seq<Event>, longest: nat)
    requires Possible(Start(stored), es, longest)
    ensures var s := Run(Start(stored), es, longest);
            forall a <- s.answers :: exists i ::
              0 <= i < a.step && i < |s.past|
              && s.past[i].stored == Some(a.value) && a.at - ROOM_CACHE_MS - longest <= s.past[i].at
  {
    RunStaysFresh(Start(stored), es, longest);
    var s := Run(Start(stored), es, longest);
    forall a <- s.answers
      ensures exists i :: 0 <= i < a.step && i < |s.past|
                && s.past[i].stored == Some(a.value) && a.at - ROOM_CACHE_MS - longest <= s.past[i].at
    {
      assert AnswerOk(s.past, a, longest);
    }
  }

  lemma RunCons(s: State, e: Event, es: seq<Event>, longest: nat)
    requires Enabled(s, e, longest)
    ensures Possible(s, [e] + es, longest) <==> Possible(Step(s, e, longest), es, longest)
    ensures Possible(s, [e] + es, longest) ==> Run(s, [e] + es, longest) == Run(Step(s, e, longest), es, longest)
  {
  }

  /** The five minutes are needed: a write and its DEL that both fall inside a fill leave the old
      value in the cache, and the next call is answered with it although no writer is under way. */
  lemma StaleAfterInvalidation(before: RoomResponse, after: Option<RoomResponse>) returns (es: seq<Event>)
    requires after != Some(before)
    ensures Possible(Start(Some(before)), es, 0)
    ensures var s := Run(Start(Some(before)), es, 0);
            && s.stored == after && s.answers != [] && s.answers[|s.answers| - 1].value == before
            && s.answers[|s.answers| - 1].step == |s.past| - 1
    ensures es[|es| - 1].Get? && exists i :: 0 <= i < |es| - 2 && es[i] == Write(after) && es[i + 1] == Del
  {
    es := [Get(1)] + ([Read(1)] + ([Write(after)] + ([Del] + ([Set(1)] + ([Get(2)] + [])))));
    var s0 := Start(Some(before));
    var s1 := Step(s0, Get(1), 0);
    var s2 := Step(s1, Read(1), 0);
    var s3 := Step(s2, Write(after), 0);
    var s4 := Step(s3, Del, 0);
    var s5 := Step(s4, Set(1), 0);
    var s6 := Step(s5, Get(2), 0);
    RunCons(s5, Get(2), [], 0);
    RunCons(s4, Set(1), [Get(2)] + [], 0);
    RunCons(s3, Del, [Set(1)] + ([Get(2)] + []), 0);
    RunCons(s2, Write(after), [Del] + ([Set(1)] + ([Get(2)] + [])), 0);
    RunCons(s1, Read(1), [Write(after)] + ([Del] + ([Set(1)] + ([Get(2)] + []))), 0);
    RunCons(s0, Get(1), [Read(1)] + ([Write(after)] + ([Del] + ([Set(1)] + ([Get(2)] + [])))), 0);
    assert es[2] == Write(after) && es[2 + 1] == Del;
  }

  /* When invalidation does work. */

  /** A fill that has read and may still issue its SET. */
  predicate InFlight(s: State, c: nat, longest: nat) {
    c in s.fills && s.fills[c].HasRead? && s.now <= s.fills[c].at + longest
  }

  /** What invalidation is for: once settled, an entry is the stored value. */
  predicate Agrees(s: State) {
    s.settled && s.cache.Some? ==> s.stored == Some(s.cache.value.value)
  }

  ghost predicate NoWrites(es: seq<Event>) {
    forall e <- es :: !e.Write?
  }

  /** Whatever other commands follow, as long as nothing more is written, invalidation works. */
  ghost predicate SafeAfter(s: State, longest: nat) {
    forall es | Possible(s, es, longest) && NoWrites(es) :: Agrees(Run(s, es, longest))
  }

  ghost predicate FillCurrent(s: State, c: nat, longest: nat) {
    InFlight(s, c, longest) ==> s.stored == Some(s.fills[c].value)
  }

  ghost predicate Sound(s: State, longest: nat) {
    Agrees(s) && forall c :: FillCurrent(s, c, longest)
  }

  ghost predicate Holds(s: State, c: nat, longest: nat, value: Option<RoomResponse>) {
    InFlight(s, c, longest) ==> value == Some(s.fills[c].value)
  }

  /** A write puts in the database what every fill between its read and its SET has read. */
  ghost predicate HarmlessWrite(s: State, e: Event, longest: nat) {
    e.Write? ==> forall c :: Holds(s, c, longest, e.value)
  }

  ghost predicate Harmless(s: State, es: seq<Event>, longest: nat)
    requires Possible(s, es, longest)
    decreases |es|
  {
    es == [] || (HarmlessWrite(s, es[0], longest) && Harmless(Step(s, es[0], longest), es[1..], longest))
  }

  lemma StepStaysSound(s: State, e: Event, longest: nat)
    requires Sound(s, longest) && Enabled(s, e, longest) && HarmlessWrite(s, e, longest)
    ensures Sound(Step(s, e, longest), longest)
  {
    assert e.Set? ==> FillCurrent(s, e.c, longest);
    forall c
      ensures FillCurrent(Step(s, e, longest), c, longest)
    {
      assert FillCurrent(s, c, longest) && (e.Write? ==> Holds(s, c, longest, e.value));
    }
  }

  lemma {:induction false} RunStaysSound(s: State, es: seq<Event>, longest: nat)
    requires Sound(s, longest) && Possible(s, es, longest) && Harmless(s, es, longest)
    ensures Sound(Run(s, es, longest), longest)
    decreases |es|
  {
    if es != [] {
      StepStaysSound(s, es[0], longest);
      RunStaysSound(Step(s, es[0], longest), es[1..], longest);
    }
  }

  lemma {:induction false} NoWritesHarmless(s: State, es: seq<Event>, longest: nat)
    requires Possible(s, es, longest) && NoWrites(es)
    ensures Harmless(s, es, longest)
    decreases |es|
  {
    if es != [] {
      assert es[0] in es;
      NoWritesHarmless(Step(s, es[0], longest), es[1..], longest);
    }
  }

  /** A fill that holds another value than the stored one undoes the invalidation to come. */
  lemma LateSetDisagrees(s: State, c: nat, longest: nat)
    requires InFlight(s, c, longest) && s.stored != Some(s.fills[c].value)
    ensures !SafeAfter(s, longest)
  {
    var s1 := Step(s, Del, longest);
    RunCons(s, Del, [Set(c)] + [], longest);
    RunCons(s1, Set(c), [], longest);
    var later := [Del] + ([Set(c)] + []);
    assert Possible(s, later, longest) && NoWrites(later);
    assert !Agrees(Run(s, later, longest));
  }

  /** Whatever has happened before, invalidation is sure to work until the next write exactly when it
      works now and every fill between its read and its SET holds the stored value. */
  lemma SafeIffSound(s: State, longest: nat)
    ensures SafeAfter(s, longest) <==> Agrees(s) && forall c :: FillCurrent(s, c, longest)
  {
    if Sound(s, longest) {
      forall es | Possible(s, es, longest) && NoWrites(es)
        ensures Agrees(Run(s, es, longest))
      {
        NoWritesHarmless(s, es, longest);
        RunStaysSound(s, es, longest);
      }
    } else if Agrees(s) {
      var c :| !FillCurrent(s, c, longest);
      LateSetDisagrees(s, c, longest);
    } else {
      assert Possible(s, [], longest) && NoWrites([]) && Run(s, [], longest) == s;
    }
  }

  /** A DEL heals whatever went before exactly when no fill in flight holds another value. */
  lemma DelHealsIff(s: State, longest: nat)
    ensures SafeAfter(Step(s, Del, longest), longest) <==> forall c :: FillCurrent(s, c, longest)
  {
    var s' := Step(s, Del, longest);
    SafeIffSound(s', longest);
    assert forall c :: FillCurrent(s', c, longest) <==> FillCurrent(s, c, longest);
  }

  /** After a write that changes the value, whatever came before it, invalidation is sure to work if and
      only if every fill then between its read and its SET has read the new value; after one that
      changes nothing, if and only if moreover it worked before. */
  lemma WriteIsSafeIff(s: State, value: Option<RoomResponse>, longest: nat)
    ensures SafeAfter(Step(s, Write(value), longest), longest) <==>
            && (value == s.stored ==> Agrees(s))
            && forall c :: InFlight(s, c, longest) ==> value == Some(s.fills[c].value)
  {
    var s' := Step(s, Write(value), longest);
    SafeIffSound(s', longest);
    forall c
      ensures FillCurrent(s', c, longest) <==> (InFlight(s, c, longest) ==> value == Some(s.fills[c].value))
    {
    }
  }

  /** So in a safe state no fill may be in flight when a write changes the value. */
  lemma ChangingWriteIsSafeIff(s: State, value: Option<RoomResponse>, longest: nat)
    requires SafeAfter(s, longest) && value != s.stored
    ensures SafeAfter(Step(s, Write(value), longest), longest) <==> forall c :: !InFlight(s, c, longest)
  {
    SafeIffSound(s, longest);
    WriteIsSafeIff(s, value, longest);
    forall c | InFlight(s, c, longest)
      ensures value != Some(s.fills[c].value)
    {
      assert FillCurrent(s, c, longest);
    }
  }

  ghost predicate AlwaysSafe(s: State, es: seq<Event>, longest: nat)
    requires Possible(s, es, longest)
    decreases |es|
  {
    SafeAfter(s, longest) && (es == [] || AlwaysSafe(Step(s, es[0], longest), es[1..], longest))
  }

  /** For every run from every state: it is safe throughout if and only if it is safe at the start and
      every write is harmless. */
  lemma {:induction false} AlwaysSafeIff(s: State, es: seq<Event>, longest: nat)
    requires Possible(s, es, longest)
    ensures AlwaysSafe(s, es, longest) <==> SafeAfter(s, longest) && Harmless(s, es, longest)
    decreases |es|
  {
    if es != [] {
      var e, s' := es[0], Step(s, es[0], longest);
      AlwaysSafeIff(s', es[1..], longest);
      SafeIffSound(s, longest);
      if e.Write? {
        WriteIsSafeIff(s, e.value, longest);
        assert forall c :: Holds(s, c, longest, e.value) <==> (InFlight(s, c, longest) ==> e.value == Some(s.fills[c].value));
      } else if SafeAfter(s, longest) {
        StepStaysSound(s, e, longest);
        SafeIffSound(s', longest);
      }
    }
  }

  /** The answer, if given at a settled moment, was the stored value at that moment. */
  ghost predicate AnswerCurrent(past: seq<Moment>, a: Answer) {
    a.step < |past| && (past[a.step].settled ==> past[a.step].stored == Some(a.value))
  }

  ghost predicate CurrentFrom(s: State, n: nat) {
    n <= |s.answers| && forall i | n <= i < |s.answers| :: AnswerCurrent(s.past, s.answers[i])
  }

  lemma {:induction false} RunAnswersCurrent(s: State, es: seq<Event>, longest: nat, n: nat)
    requires Sound(s, longest) && CurrentFrom(s, n) && Possible(s, es, longest) && Harmless(s, es, longest)
    ensures CurrentFrom(Run(s, es, longest), n)
    decreases |es|
  {
    if es != [] {
      StepStaysSound(s, es[0], longest);
      StepAnswersCurrent(s, es[0], longest, n);
      RunAnswersCurrent(Step(s, es[0], longest), es[1..], longest, n);
    }
  }

  lemma StepAnswersCurrent(s: State, e: Event, longest: nat, n: nat)
    requires Sound(s, longest) && CurrentFrom(s, n) && Enabled(s, e, longest)
    ensures CurrentFrom(Step(s, e, longest), n)
  {
    var s' := Step(s, e, longest);
    assert e.Set? ==> FillCurrent(s, e.c, longest);
    forall i | n <= i < |s'.answers|
      ensures AnswerCurrent(s'.past, s'.answers[i])
    {
      if i < |s.answers| {
        assert AnswerCurrent(s.past, s.answers[i]) && s'.past[s.answers[i].step] == s.past[s.answers[i].step];
      }
    }
  }

  /** From any safe state, an empty cache or one that a DEL has healed among them, in every run whose
      writes are harmless: while no write that changed the value is newer than the last invalidation, an
      entry holds exactly the stored value, and every answer given at such a moment was the value stored
      then. */
  lemma InvalidationWorks(s: State, es: seq<Event>, longest: nat)
    requires SafeAfter(s, longest) && Possible(s, es, longest) && Harmless(s, es, longest)
    ensures var t := Run(s, es, longest);
            && SafeAfter(t, longest)
            && (t.settled && t.cache.Some? ==> t.stored == Some(t.cache.value.value))
            && |s.answers| <= |t.answers|
            && forall i | |s.answers| <= i < |t.answers| ::
                 var a := t.answers[i];
                 a.step < |t.past| && (t.past[a.step].settled ==> t.past[a.step].stored == Some(a.value))
  {
    SafeIffSound(s, longest);
    RunStaysSound(s, es, longest);
    RunAnswersCurrent(s, es, longest, |s.answers|);
    var t := Run(s, es, longest);
    SafeIffSound(t, longest);
    forall i | |s.answers| <= i < |t.answers|
      ensures var a := t.answers[i];
              a.step < |t.past| && (t.past[a.step].settled ==> t.past[a.step].stored == Some(a.value))
    {
      assert AnswerCurrent(t.past, t.answers[i]);
    }
  }

  /** A write that changes the cached fields finds no fill between its read and its SET. */
  ghost predicate Undisturbed(s: State, es: seq<Event>, longest: nat)
    requires Possible(s, es, longest)
    decreases |es|
  {
    es == [] ||
    ((es[0].Write? && es[0].value != s.stored ==> forall c :: !InFlight(s, c, longest))
     && Undisturbed(Step(s, es[0], longest), es[1..], longest))
  }

  /** From a safe state that comes to the same: in particular from the start. */
  lemma {:induction false} UndisturbedIffHarmless(s: State, es: seq<Event>, longest: nat)
    requires SafeAfter(s, longest) && Possible(s, es, longest)
    ensures Undisturbed(s, es, longest) <==> Harmless(s, es, longest)
    decreases |es|
  {
    if es != [] {
      SafeIffSound(s, longest);
      var e, s' := es[0], Step(s, es[0], longest);
      forall c
        ensures FillCurrent(s, c, longest)
        ensures e.Write? ==> (Holds(s, c, longest, e.value) <==> !InFlight(s, c, longest) || e.value == s.stored)
      {
      }
      if HarmlessWrite(s, e, longest) {
        StepStaysSound(s, e, longest);
        SafeIffSound(s', longest);
        UndisturbedIffHarmless(s', es[1..], longest);
      }
    }
  }

  lemma StartIsSafe(stored: Option<RoomResponse>, longest: nat)
    ensures SafeAfter(Start(stored), longest)
  {
    SafeIffSound(Start(stored), longest);
  }

  /** A SET leaves the entry equal to the database exactly when what was read is still stored. */
  lemma SetIsCurrentIff(s: State, c: nat, longest: nat)
    requires Enabled(s, Set(c), longest)
    ensures var s' := Step(s, Set(c), longest);
            s'.cache.Some? && (s'.stored == Some(s'.cache.value.value) <==> s.stored == Some(s.fills[c].value))
  {
  }

  /** A role change is a write that changes no cached field, so it needs no invalidation. */
  lemma RoleChangesNothingCached(w: World, id: string, actor: string, target: string, newRole: Role, other: string)
    requires other in w.rooms
    ensures var w' := SetMemberRole(w, id, actor, target, newRole).0;
            other in w'.rooms && ToRoomResponse(other, w'.rooms[other]) == ToRoomResponse(other, w.rooms[other])
  {
  }

  /** The state of one room's cache in a world. */
  predicate Shows(s: State, w: World, id: string) {
    && s.now == w.now
    && s.stored == (if id in w.rooms then Some(ToRoomResponse(id, w.rooms[id])) else None)
    && s.cache == (if id in w.cache then Some(w.cache[id]) else None)
  }

  /** With nothing in between, the commands of one call come to the atomic getRoomById. */
  lemma SerialIsAtomic(s: State, w: World, id: string, c: nat, longest: nat)
    requires Shows(s, w, id) && c !in s.fills
    ensures var (w', r), s1 := GetRoomById(w, id), Step(s, Get(c), longest);
            if s.cache.Some? && Live(s.cache.value.expiresAt, s.now) then
              Shows(s1, w', id) && |s1.answers| == |s.answers| + 1 && r == Ok(View(s1.answers[|s.answers|].value))
            else
              && Enabled(s1, Read(c), longest)
              && var s2 := Step(s1, Read(c), longest);
                 if s.stored.None? then Shows(s2, w', id) && r == Err(RoomNotFound)
                 else
                   && Enabled(s2, Set(c), longest)
                   && var s3 := Step(s2, Set(c), longest);
                      Shows(s3, w', id) && |s3.answers| == |s.answers| + 1 && r == Ok(View(s3.answers[|s.answers|].value))
  {
  }
}
