/** Reaction toggles as they interleave: the two updates of each toggle are separate steps, with
    other toggles' updates and other writes in between. */
module Reactions {
  import opened Common
  import opened Messages

  /** What a caller asks for: a whole toggle or another write. */
  datatype Whole = Toggled(c: Call) | Other(op: Op)

  datatype Event = Add(c: Call) | Pull(c: Call) | Write(op: Op)

  /** `pending` holds the calls between their two updates; `replies` what callers of toggles and
      other writes were told, in order. */
  datatype State = State(store: Store, pending: multiset<Call>, replies: seq<(Whole, Reply)>)

  function Step(s: State, e: Event): State {
    match e
    case Add(c) =>
      var (store', added) := AddStep(s.store, c);
      if added.Some? then State(store', s.pending, s.replies + [(Toggled(c), Ok(Shown(added.value)))])
      else s.(pending := s.pending + multiset{c})
    case Pull(c) =>
      var (store', reply) := PullStep(s.store, c);
      State(store', s.pending - multiset{c}, s.replies + [(Toggled(c), reply)])
    case Write(op) =>
      var (store', reply) := Apply(s.store, op);
      s.(store := store', replies := s.replies + [(Other(op), reply)])
  }

  /** The second update belongs to a pending call, and nobody holds the id of a message before it is created. */
  ghost predicate Enabled(s: State, e: Event) {
    match e
    case Add(_) => true
    case Pull(c) => c in s.pending
    case Write(op) => OpOk(s.store, op) && (op.Create? ==> forall c <- s.pending :: c.messageId != op.id)
  }

  /** In addition: at most one toggle in flight for a user, message and emoji. */
  ghost predicate OneInFlight(s: State, e: Event) {
    Enabled(s, e) && (e.Add? ==> e.c !in s.pending)
  }

  function Run(s: State, es: seq<Event>): State
    decreases |es|
  {
    if es == [] then s else Run(Step(s, es[0]), es[1..])
  }

  ghost predicate Possible(s: State, es: seq<Event>)
    decreases |es|
  {
    es == [] || (Enabled(s, es[0]) && Possible(Step(s, es[0]), es[1..]))
  }

  ghost predicate Disciplined(s: State, es: seq<Event>)
    decreases |es|
  {
    es == [] || (OneInFlight(s, es[0]) && Disciplined(Step(s, es[0]), es[1..]))
  }

  /** The sequential world: whole toggles and other writes, one at a time. */
  function Do(store: Store, w: Whole): (Store, Reply) {
    match w
    case Toggled(c) => Toggle(store, c)
    case Other(op) => Apply(store, op)
  }

  function RunWhole(store: Store, replies: seq<(Whole, Reply)>, ws: seq<Whole>): (Store, seq<(Whole, Reply)>)
    decreases |ws|
  {
    if ws == [] then (store, replies)
    else
      var (store', reply) := Do(store, ws[0]);
      RunWhole(store', replies + [(ws[0], reply)], ws[1..])
  }

  /** The sequential order an interleaving amounts to: each toggle at the step that answered it,
      hence between its own first and last step; each write where it was. */
  function Linearized(s: State, es: seq<Event>): seq<Whole>
    decreases |es|
  {
    if es == [] then []
    else
      var here := match es[0]
                  case Add(c) => if AddStep(s.store, c).1.Some? then [Toggled(c)] else []
                  case Pull(c) => [Toggled(c)]
                  case Write(op) => [Other(op)];
      here + Linearized(Step(s, es[0]), es[1..])
  }

  /** The situation a second update expects: the user listed, or the message out of reach. */
  predicate Expected(store: Store, c: Call) {
    Reachable(store, c.messageId) ==> c.userId in store.msgs[c.messageId].Reactors(c.emoji)
  }

  ghost predicate AllExpected(s: State) {
    forall c <- s.pending :: s.pending[c] == 1 && Expected(s.store, c)
  }

  /** A second update is a whole toggle exactly when it finds what it expects. */
  lemma PullIsToggle(store: Store, c: Call)
    ensures PullStep(store, c) == Toggle(store, c) <==> Expected(store, c)
  {
    if !Expected(store, c) {
      var after, pulled := Toggle(store, c).0.msgs[c.messageId], PullStep(store, c).0.msgs[c.messageId];
      assert after.Reactors(c.emoji)[|after.Reactors(c.emoji)| - 1] == c.userId;
      assert c.userId in after.Reactors(c.emoji) && c.userId !in pulled.Reactors(c.emoji);
    }
  }

  lemma StepKeepsExpected(s: State, e: Event, c: Call)
    requires Enabled(s, e) && Expected(s.store, c)
    requires c in s.pending && e != Pull(c)
    ensures Expected(Step(s, e).store, c)
  {
  }

  lemma StepKeepsAllExpected(s: State, e: Event)
    requires AllExpected(s) && OneInFlight(s, e)
    ensures AllExpected(Step(s, e))
  {
    var s' := Step(s, e);
    forall c <- s'.pending
      ensures s'.pending[c] == 1 && Expected(s'.store, c)
    {
      if c in s.pending {
        StepKeepsExpected(s, e, c);
      }
    }
  }

  /** Every second update of the run finds what it expects. */
  ghost predicate PullsExpected(s: State, es: seq<Event>)
    decreases |es|
  {
    es == [] || ((es[0].Pull? ==> Expected(s.store, es[0].c)) && PullsExpected(Step(s, es[0]), es[1..]))
  }

  lemma {:induction false} RepliesStay(s: State, es: seq<Event>)
    ensures s.replies <= Run(s, es).replies
    decreases |es|
  {
    if es != [] {
      RepliesStay(Step(s, es[0]), es[1..]);
    }
  }

  lemma {:induction false} WholeRepliesStay(store: Store, replies: seq<(Whole, Reply)>, ws: seq<Whole>)
    ensures replies <= RunWhole(store, replies, ws).1
    decreases |ws|
  {
    if ws != [] {
      var (store', reply) := Do(store, ws[0]);
      WholeRepliesStay(store', replies + [(ws[0], reply)], ws[1..]);
    }
  }

  /** A second update that does not find what it expects is answered as no whole toggle would be. */
  lemma PullRepliesDiffer(store: Store, c: Call)
    requires !Expected(store, c)
    ensures PullStep(store, c).1 != Toggle(store, c).1
  {
    var toggled, pulled := Toggle(store, c).1.value.message, PullStep(store, c).1.value.message;
    assert toggled.Reactors(c.emoji)[|toggled.Reactors(c.emoji)| - 1] == c.userId;
    assert c.userId in toggled.Reactors(c.emoji) && c.userId !in pulled.Reactors(c.emoji);
  }

  /** In every run whatever: the messages and all replies are those of the sequential order
      `Linearized` of whole toggles and other writes if and only if every second update finds the user
      listed or the message out of reach. */
  lemma {:induction false} LinearizableIff(s: State, es: seq<Event>)
    ensures RunWhole(s.store, s.replies, Linearized(s, es)) == (Run(s, es).store, Run(s, es).replies)
       <==> PullsExpected(s, es)
    decreases |es|
  {
    if es != [] {
      var s' := Step(s, es[0]);
      LinearizableIff(s', es[1..]);
      var later := Linearized(s', es[1..]);
      if es[0].Pull? {
        assert ([Toggled(es[0].c)] + later)[1..] == later;
        if Expected(s.store, es[0].c) {
          PullIsToggle(s.store, es[0].c);
        } else {
          UnexpectedPullShows(s, es[0].c, es[1..], later);
        }
      } else if es[0].Write? {
        assert ([Other(es[0].op)] + later)[1..] == later;
      } else if AddStep(s.store, es[0].c).1.Some? {
        assert ([Toggled(es[0].c)] + later)[1..] == later;
      } else {
        assert [] + later == later;
      }
    }
  }

  lemma UnexpectedPullShows(s: State, c: Call, es: seq<Event>, later: seq<Whole>)
    requires !Expected(s.store, c)
    ensures RunWhole(s.store, s.replies, [Toggled(c)] + later).1 != Run(Step(s, Pull(c)), es).replies
  {
    PullRepliesDiffer(s.store, c);
    RepliesStay(Step(s, Pull(c)), es);
    var (store', reply) := Toggle(s.store, c);
    assert ([Toggled(c)] + later)[1..] == later;
    WholeRepliesStay(store', s.replies + [(Toggled(c), reply)], later);
    assert RunWhole(s.store, s.replies, [Toggled(c)] + later).1[|s.replies|] == (Toggled(c), reply);
  }

  /* No other order does better. */

  /** Every other write is possible where it stands. */
  ghost predicate PossibleWhole(store: Store, ws: seq<Whole>)
    decreases |ws|
  {
    ws == [] || ((ws[0].Other? ==> OpOk(store, ws[0].op)) && PossibleWhole(Do(store, ws[0]).0, ws[1..]))
  }

  /** Some order of whole operations leaves the same messages and gives the same replies, each caller
      its own. */
  ghost predicate Explains(s: State, es: seq<Event>, ws: seq<Whole>) {
    && PossibleWhole(s.store, ws)
    && RunWhole(s.store, s.replies, ws).0 == Run(s, es).store
    && multiset(RunWhole(s.store, s.replies, ws).1) == multiset(Run(s, es).replies)
  }

  /** A reply to the call with the user on the list, or without. */
  predicate On(r: (Whole, Reply), c: Call) {
    r.0 == Toggled(c) && r.1.Ok? && r.1.value.Shown? && c.userId in r.1.value.message.Reactors(c.emoji)
  }

  predicate Off(r: (Whole, Reply), c: Call) {
    r.0 == Toggled(c) && r.1.Ok? && r.1.value.Shown? && c.userId !in r.1.value.message.Reactors(c.emoji)
  }

  ghost function Balance(replies: seq<(Whole, Reply)>, c: Call): int {
    Count(replies, r => On(r, c)) - Count(replies, r => Off(r, c))
  }

  function Gain(r: (Whole, Reply), c: Call): int {
    if On(r, c) then 1 else if Off(r, c) then -1 else 0
  }

  lemma BalancePush(replies: seq<(Whole, Reply)>, r: (Whole, Reply), c: Call)
    ensures Balance(replies + [r], c) == Balance(replies, c) + Gain(r, c)
  {
    CountPush(replies, r, r => On(r, c));
    CountPush(replies, r, r => Off(r, c));
  }

  /** 1 when the call's user is on the call's list. */
  function Seat(store: Store, c: Call): int {
    if Listed(store, c.messageId, c.emoji, c.userId) then 1 else 0
  }

  lemma ApplyKeepsSeat(store: Store, op: Op, c: Call)
    requires OpOk(store, op)
    ensures Seat(Apply(store, op).0, c) == Seat(store, c) && Gain((Other(op), Apply(store, op).1), c) == 0
  {
    if c.messageId in store.msgs {
      ApplyBySender(store, op, c.messageId);
    }
  }

  /** A whole operation moves the balance exactly as it moves the seat. */
  lemma WholeMovesBoth(store: Store, w: Whole, c: Call)
    requires w.Other? ==> OpOk(store, w.op)
    ensures Gain((w, Do(store, w).1), c) == Seat(Do(store, w).0, c) - Seat(store, c)
  {
    if w.Other? {
      ApplyKeepsSeat(store, w.op, c);
    } else {
      ToggleFlips(store, w.c, c.messageId, c.emoji, c.userId);
      ToggleReply(store, w.c);
    }
  }

  lemma ToggleReply(store: Store, c: Call)
    ensures var (store', reply) := Toggle(store, c);
            reply.Ok? ==> reply.value.Shown?
                          && (c.userId in reply.value.message.Reactors(c.emoji) <==>
                              Listed(store', c.messageId, c.emoji, c.userId))
  {
  }

  lemma {:induction false} WholesMoveBoth(store: Store, replies: seq<(Whole, Reply)>, ws: seq<Whole>, c: Call)
    requires PossibleWhole(store, ws)
    ensures var (store', replies') := RunWhole(store, replies, ws);
            Balance(replies', c) - Balance(replies, c) == Seat(store', c) - Seat(store, c)
    decreases |ws|
  {
    if ws != [] {
      var (store', reply) := Do(store, ws[0]);
      WholeMovesBoth(store, ws[0], c);
      BalancePush(replies, (ws[0], reply), c);
      WholesMoveBoth(store', replies + [(ws[0], reply)], ws[1..], c);
    }
  }

  /** The second updates of the call that do not find what they expect. */
  ghost function Surprises(s: State, es: seq<Event>, c: Call): nat
    decreases |es|
  {
    if es == [] then 0
    else (if es[0] == Pull(c) && !Expected(s.store, c) then 1 else 0) + Surprises(Step(s, es[0]), es[1..], c)
  }

  /** So does a step of an interleaving, except that a surprised second update takes one more away. */
  lemma StepMovesBoth(s: State, e: Event, c: Call)
    requires Enabled(s, e)
    ensures Balance(Step(s, e).replies, c) - Balance(s.replies, c)
         == Seat(Step(s, e).store, c) - Seat(s.store, c) - if e == Pull(c) && !Expected(s.store, c) then 1 else 0
  {
    match e {
      case Write(op) =>
        ApplyKeepsSeat(s.store, op, c);
        BalancePush(s.replies, (Other(op), Apply(s.store, op).1), c);
      case Add(d) =>
        AddMovesBoth(s.store, d, c);
        if AddStep(s.store, d).1.Some? {
          BalancePush(s.replies, (Toggled(d), Ok(Shown(AddStep(s.store, d).1.value))), c);
        }
      case Pull(d) =>
        PullMovesBoth(s.store, d, c);
        BalancePush(s.replies, (Toggled(d), PullStep(s.store, d).1), c);
    }
  }

  lemma AddMovesBoth(store: Store, d: Call, c: Call)
    ensures var (store', added) := AddStep(store, d);
            Seat(store', c) - Seat(store, c) == if added.Some? then Gain((Toggled(d), Ok(Shown(added.value))), c) else 0
  {
  }

  lemma PullMovesBoth(store: Store, d: Call, c: Call)
    ensures var (store', reply) := PullStep(store, d);
            Seat(store', c) == Seat(store, c) + Gain((Toggled(d), reply), c) + if d == c && !Expected(store, c) then 1 else 0
  {
  }

  lemma {:induction false} RunMovesBoth(s: State, es: seq<Event>, c: Call)
    requires Possible(s, es)
    ensures Balance(Run(s, es).replies, c) - Balance(s.replies, c)
         == Seat(Run(s, es).store, c) - Seat(s.store, c) - Surprises(s, es, c)
    decreases |es|
  {
    if es != [] {
      StepMovesBoth(s, es[0], c);
      RunMovesBoth(Step(s, es[0]), es[1..], c);
    }
  }

  lemma {:induction false} NoSurprise(s: State, es: seq<Event>)
    requires forall c :: Surprises(s, es, c) == 0
    ensures PullsExpected(s, es)
    decreases |es|
  {
    if es != [] {
      forall c
        ensures Surprises(Step(s, es[0]), es[1..], c) == 0
      {
        assert Surprises(s, es, c) == 0;
      }
      NoSurprise(Step(s, es[0]), es[1..]);
      if es[0].Pull? {
        assert Surprises(s, es, es[0].c) == 0;
      }
    }
  }

  /** A run with a surprised second update has no sequential order at all, whatever the order of the
      replies. */
  lemma NoOrder(s: State, es: seq<Event>, ws: seq<Whole>)
    requires Possible(s, es) && Explains(s, es, ws)
    ensures PullsExpected(s, es)
  {
    forall c
      ensures Surprises(s, es, c) == 0
    {
      RunMovesBoth(s, es, c);
      WholesMoveBoth(s.store, s.replies, ws, c);
      var whole, run := RunWhole(s.store, s.replies, ws).1, Run(s, es).replies;
      CountIsOfMultiset(whole, run, r => On(r, c));
      CountIsOfMultiset(whole, run, r => Off(r, c));
    }
    NoSurprise(s, es);
  }

  lemma {:induction false} LinearizedIsPossible(s: State, es: seq<Event>)
    requires Possible(s, es) && PullsExpected(s, es)
    ensures PossibleWhole(s.store, Linearized(s, es))
    decreases |es|
  {
    if es != [] {
      var e, later := es[0], Linearized(Step(s, es[0]), es[1..]);
      LinearizedIsPossible(Step(s, e), es[1..]);
      if e.Pull? {
        PullIsToggle(s.store, e.c);
        assert ([Toggled(e.c)] + later)[1..] == later;
      } else if e.Write? {
        assert ([Other(e.op)] + later)[1..] == later;
      } else if AddStep(s.store, e.c).1.Some? {
        assert ([Toggled(e.c)] + later)[1..] == later;
      } else {
        assert [] + later == later;
      }
    }
  }

  /** Every possible run: some sequential order of whole operations explains it if and only if every
      second update finds the user listed or the message out of reach. */
  lemma SomeOrderIff(s: State, es: seq<Event>)
    requires Possible(s, es)
    ensures (exists ws :: Explains(s, es, ws)) <==> PullsExpected(s, es)
  {
    if PullsExpected(s, es) {
      LinearizableIff(s, es);
      LinearizedIsPossible(s, es);
      assert Explains(s, es, Linearized(s, es));
    } else {
      forall ws
        ensures !Explains(s, es, ws)
      {
        if Explains(s, es, ws) {
          NoOrder(s, es, ws);
        }
      }
    }
  }

  lemma {:induction false} DisciplinedIsExpected(s: State, es: seq<Event>)
    requires AllExpected(s) && Disciplined(s, es)
    ensures PullsExpected(s, es)
    decreases |es|
  {
    if es != [] {
      StepKeepsAllExpected(s, es[0]);
      DisciplinedIsExpected(Step(s, es[0]), es[1..]);
    }
  }

  /** So with at most one toggle in flight for a user, message and emoji, every interleaving leaves the
      messages, and gives every caller the reply, of a sequential order of whole operations. */
  lemma Linearizable(s: State, es: seq<Event>)
    requires AllExpected(s) && Disciplined(s, es)
    ensures RunWhole(s.store, s.replies, Linearized(s, es)) == (Run(s, es).store, Run(s, es).replies)
  {
    DisciplinedIsExpected(s, es);
    LinearizableIff(s, es);
  }

  lemma RunCons(s: State, e: Event, es: seq<Event>)
    ensures Run(s, [e] + es) == Run(Step(s, e), es)
    ensures Possible(s, [e] + es) <==> Enabled(s, e) && Possible(Step(s, e), es)
  {
  }

  lemma RunFour(s: State, a: Event, b: Event, c: Event, d: Event)
    ensures Run(s, [a, b, c, d]) == Step(Step(Step(Step(s, a), b), c), d)
    ensures Possible(s, [a, b, c, d]) <==>
            && Enabled(s, a) && Enabled(Step(s, a), b) && Enabled(Step(Step(s, a), b), c)
            && Enabled(Step(Step(Step(s, a), b), c), d)
  {
    assert [a, b, c, d] == [a] + ([b] + ([c] + ([d] + [])));
    RunCons(s, a, [b] + ([c] + ([d] + [])));
    RunCons(Step(s, a), b, [c] + ([d] + []));
    RunCons(Step(Step(s, a), b), c, [d] + []);
    RunCons(Step(Step(Step(s, a), b), c), d, []);
  }

  lemma WholeTwice(store: Store, replies: seq<(Whole, Reply)>, c: Call)
    ensures RunWhole(store, replies, [Toggled(c), Toggled(c)]).0 == Toggle(Toggle(store, c).0, c).0
  {
    var ws := [Toggled(c), Toggled(c)];
    assert ws[1..] == [Toggled(c)] && ws[1..][1..] == [];
    var once := Toggle(store, c);
    var twice := Toggle(once.0, c);
    var later := replies + [(Toggled(c), once.1)];
    assert RunWhole(store, replies, ws) == RunWhole(once.0, later, ws[1..]);
    assert RunWhole(once.0, later, ws[1..]) == RunWhole(twice.0, later + [(Toggled(c), twice.1)], ws[1..][1..]);
  }

  /** The two updates on a message whose list under the emoji is known. */
  lemma UpdatesOn(store: Store, c: Call)
    requires Reachable(store, c.messageId) && store.msgs[c.messageId].Reactors(c.emoji) in {[], [c.userId]}
    ensures var added, pulled := AddStep(store, c), PullStep(store, c).0;
            && (added.1.Some? <==> store.msgs[c.messageId].Reactors(c.emoji) == [])
            && Reachable(added.0, c.messageId) && added.0.msgs[c.messageId].Reactors(c.emoji) == [c.userId]
            && Reachable(pulled, c.messageId) && pulled.msgs[c.messageId].Reactors(c.emoji) == []
  {
  }

  /** Without that limit it fails: two tabs of a user who has reacted both find the reaction there,
      both then pull it, and the reaction is gone; two whole toggles, in either order, keep it. */
  lemma TwoTabsAreNotLinearizable(s: State, c: Call)
    requires Reachable(s.store, c.messageId) && s.store.msgs[c.messageId].Reactors(c.emoji) == [c.userId]
    requires s.pending == multiset{}
    ensures Possible(s, [Add(c), Add(c), Pull(c), Pull(c)])
    ensures !Listed(Run(s, [Add(c), Add(c), Pull(c), Pull(c)]).store, c.messageId, c.emoji, c.userId)
    ensures Listed(RunWhole(s.store, s.replies, [Toggled(c), Toggled(c)]).0, c.messageId, c.emoji, c.userId)
  {
    RunFour(s, Add(c), Add(c), Pull(c), Pull(c));
    UpdatesOn(s.store, c);
    UpdatesOn(PullStep(s.store, c).0, c);
    WholeTwice(s.store, s.replies, c);
  }

  /** Whether `user` is listed under `emoji` on message `id`. */
  predicate Listed(store: Store, id: string, emoji: string, user: string) {
    id in store.msgs && user in store.msgs[id].Reactors(emoji)
  }

  /** A whole toggle flips its own membership when the message is within reach, changes no other
      membership, and leaves a message out of reach as it is. */
  lemma ToggleFlips(store: Store, c: Call, id: string, emoji: string, user: string)
    ensures var (store', reply) := Toggle(store, c);
            && (reply.Ok? <==> Reachable(store, c.messageId))
            && (Listed(store', id, emoji, user) <==>
                if reply.Ok? && Call(id, user, emoji) == c then !Listed(store, id, emoji, user)
                else Listed(store, id, emoji, user))
  {
  }

  /** Two toggles in a row restore every reactor set and touch nothing else of any message; but on a
      message within reach the emoji stays as a key, even when nobody had used it before. */
  lemma TwoTogglesRestore(store: Store, c: Call, id: string, emoji: string, user: string)
    ensures var twice := Toggle(Toggle(store, c).0, c).0;
            && (Listed(twice, id, emoji, user) <==> Listed(store, id, emoji, user))
            && twice.order == store.order && twice.msgs.Keys == store.msgs.Keys
            && (id in store.msgs ==> twice.msgs[id].(reactions := map[]) == store.msgs[id].(reactions := map[]))
            && (Reachable(store, c.messageId) ==> c.emoji in twice.msgs[c.messageId].reactions)
  {
    ToggleFlips(store, c, id, emoji, user);
    ToggleFlips(Toggle(store, c).0, c, id, emoji, user);
  }

  /** With no limit on what is in flight, an update by u on e changes at most u's membership in e. */
  lemma StepTouchesOwnMembership(s: State, e: Event, id: string, emoji: string, user: string)
    requires Enabled(s, e) && id in s.store.msgs
    requires e.Add? || e.Pull? ==> e.c != Call(id, user, emoji)
    ensures Listed(Step(s, e).store, id, emoji, user) <==> Listed(s.store, id, emoji, user)
  {
  }

  lemma {:induction false} WithoutKeepsNoDup(users: seq<string>, u: string)
    requires NoDup(users)
    ensures NoDup(Without(users, u))
  {
    if users != [] {
      var rest, last := users[..|users| - 1], users[|users| - 1];
      WithoutKeepsNoDup(rest, u);
      assert last !in Without(rest, u);
    }
  }

  /** What a step can do to a list: nothing, a user who was not there added, or a user removed. */
  lemma ListAfterStep(s: State, e: Event, id: string, emoji: string)
    requires Enabled(s, e) && id in s.store.msgs
    ensures id in Step(s, e).store.msgs
    ensures var users, users' := s.store.msgs[id].Reactors(emoji), Step(s, e).store.msgs[id].Reactors(emoji);
            || users' == users
            || (e.Add? && e.c.userId !in users && users' == users + [e.c.userId])
            || (e.Pull? && users' == Without(users, e.c.userId))
  {
    if e.Write? {
      ApplyBySender(s.store, e.op, id);
    } else {
      UpdateOfList(s.store, e.c, id, emoji);
    }
  }

  lemma UpdateOfList(store: Store, c: Call, id: string, emoji: string)
    requires id in store.msgs
    ensures var users, added, pulled := store.msgs[id].Reactors(emoji), AddStep(store, c).0, PullStep(store, c).0;
            && id in added.msgs && id in pulled.msgs
            && (added.msgs[id].Reactors(emoji) == users
                || (c.userId !in users && added.msgs[id].Reactors(emoji) == users + [c.userId]))
            && pulled.msgs[id].Reactors(emoji) in {users, Without(users, c.userId)}
  {
  }

  lemma StepKeepsLists(s: State, e: Event)
    requires ListsOk(s.store) && Enabled(s, e)
    ensures ListsOk(Step(s, e).store)
  {
    var store' := Step(s, e).store;
    forall id <- store'.msgs, emoji: string
      ensures NoDup(store'.msgs[id].Reactors(emoji))
    {
      if id in s.store.msgs {
        var users := s.store.msgs[id].Reactors(emoji);
        assert NoDup(users);
        ListAfterStep(s, e, id, emoji);
        if e.Pull? {
          WithoutKeepsNoDup(users, e.c.userId);
        }
      } else {
        NewHasNoReactions(s, e, id);
      }
    }
  }

  lemma NewHasNoReactions(s: State, e: Event, id: string)
    requires Enabled(s, e) && id !in s.store.msgs && id in Step(s, e).store.msgs
    ensures Step(s, e).store.msgs[id].reactions == map[]
  {
  }

  /** Reactor lists stay duplicate-free in every interleaving, disciplined or not. */
  lemma {:induction false} RunKeepsLists(s: State, es: seq<Event>)
    requires ListsOk(s.store) && Possible(s, es)
    ensures ListsOk(Run(s, es).store)
    decreases |es|
  {
    if es != [] {
      StepKeepsLists(s, es[0]);
      RunKeepsLists(Step(s, es[0]), es[1..]);
    }
  }

  /** No step touches a deleted message. */
  lemma StepLeavesDeleted(s: State, e: Event, id: string)
    requires Enabled(s, e) && id in s.store.msgs && s.store.msgs[id].deletedAt.Some?
    ensures id in Step(s, e).store.msgs && Step(s, e).store.msgs[id] == s.store.msgs[id]
  {
  }

  /** Once a message is deleted nothing about it ever changes again, and what clients are shown of it
      is "[deleted]". */
  lemma {:induction false} DeletedIsFrozen(s: State, es: seq<Event>, id: string)
    requires Possible(s, es)
    requires id in s.store.msgs && s.store.msgs[id].deletedAt.Some?
    ensures id in Run(s, es).store.msgs && Run(s, es).store.msgs[id] == s.store.msgs[id]
    ensures ToMessageResponse(Run(s, es).store.msgs[id]).content == "[deleted]"
    decreases |es|
  {
    if es != [] {
      StepLeavesDeleted(s, es[0], id);
      DeletedIsFrozen(Step(s, es[0]), es[1..], id);
    }
  }

  lemma ApplyBySender(store: Store, op: Op, id: string)
    requires id in store.msgs && OpOk(store, op)
    ensures id in Apply(store, op).0.msgs
    ensures var m, m' := store.msgs[id], Apply(store, op).0.msgs[id];
            || m' == m
            || (m.deletedAt.None? && op.Edit? && op.id == id && op.userId == m.senderId
                && m' == m.(content := Trim(op.content), editedAt := Some(op.at)) && op.at <= m.createdAt + EDIT_WINDOW_MS)
            || (m.deletedAt.None? && op.Delete? && op.id == id && op.userId == m.senderId
                && m' == m.(deletedAt := Some(op.at)))
  {
  }

  /** An update of a toggle changes reactions only. */
  lemma UpdatesChangeReactions(store: Store, c: Call, id: string)
    requires id in store.msgs
    ensures var added, pulled := AddStep(store, c).0, PullStep(store, c).0;
            && id in added.msgs && added.msgs[id] == store.msgs[id].(reactions := added.msgs[id].reactions)
            && id in pulled.msgs && pulled.msgs[id] == store.msgs[id].(reactions := pulled.msgs[id].reactions)
  {
  }

  /** Only its sender changes what a message says or whether it is deleted; who sent it, where and
      when never changes. */
  lemma OnlyTheSenderWrites(s: State, e: Event, id: string)
    requires Enabled(s, e) && id in s.store.msgs
    ensures id in Step(s, e).store.msgs
    ensures var m, m' := s.store.msgs[id], Step(s, e).store.msgs[id];
            && m'.id == m.id && m'.roomId == m.roomId && m'.senderId == m.senderId && m'.createdAt == m.createdAt
            && (m'.content != m.content || m'.editedAt != m.editedAt ==>
                  e.Write? && e.op.Edit? && e.op.id == id && e.op.userId == m.senderId && m.deletedAt.None?)
            && (m'.deletedAt != m.deletedAt ==>
                  e.Write? && e.op.Delete? && e.op.id == id && e.op.userId == m.senderId && m.deletedAt.None?)
  {
    if e.Write? {
      ApplyBySender(s.store, e.op, id);
    } else {
      UpdatesChangeReactions(s.store, e.c, id);
    }
  }

  ghost predicate EditTimely(m: Message) {
    m.editedAt.Some? ==> m.editedAt.value <= m.createdAt + EDIT_WINDOW_MS
  }

  /** In every run, no message is edited later than 15 minutes after its creation. */
  lemma {:induction false} EditsAreTimely(s: State, es: seq<Event>, id: string)
    requires Possible(s, es) && (id in s.store.msgs ==> EditTimely(s.store.msgs[id]))
    ensures id in Run(s, es).store.msgs ==> EditTimely(Run(s, es).store.msgs[id])
    decreases |es|
  {
    if es != [] {
      StepKeepsEditTimely(s, es[0], id);
      EditsAreTimely(Step(s, es[0]), es[1..], id);
    }
  }

  lemma StepKeepsEditTimely(s: State, e: Event, id: string)
    requires Enabled(s, e) && (id in s.store.msgs ==> EditTimely(s.store.msgs[id]))
    ensures id in Step(s, e).store.msgs ==> EditTimely(Step(s, e).store.msgs[id])
  {
  }

  /* What other writes do. */

  /** Message `id` is now `m`, and every other message and the order are as before. */
  ghost predicate OnlyMessage(store: Store, store': Store, id: string, m: Message) {
    store'.msgs == store.msgs[id := m] && store'.order == store.order
  }

  /** The sender's message, still undeleted. */
  predicate Own(store: Store, id: string, u: string) {
    id in store.msgs && store.msgs[id].deletedAt.None? && store.msgs[id].senderId == u
  }

  /** The write's caller is told `reply`, and no toggle under way is disturbed. */
  ghost predicate Told(s: State, s': State, op: Op, reply: Reply) {
    s'.pending == s.pending && s'.replies == s.replies + [(Other(op), reply)]
  }

  /** A deletion goes through exactly for the sender of an undeleted message; then the message has its
      deletion time and shows as "[deleted]", and nothing else about any message has changed. */
  lemma DeleteEffect(s: State, id: string, u: string, at: int)
    ensures var op := Delete(id, u, at);
            var s' := Step(s, Write(op));
            if Own(s.store, id, u) then
              var m := s.store.msgs[id];
              && Told(s, s', op, Ok(Removed(m.id, m.roomId)))
              && id in s'.store.msgs && s'.store.msgs[id].deletedAt == Some(at)
              && s'.store.msgs[id].(deletedAt := None) == m
              && OnlyMessage(s.store, s'.store, id, s'.store.msgs[id])
              && ToMessageResponse(s'.store.msgs[id]).content == "[deleted]"
            else
              Told(s, s', op, Err(DeleteNotAllowed)) && s'.store == s.store
  {
  }

  /** An edit goes through exactly for the sender of an undeleted message of the last 15 minutes; then
      the message has the new content, trimmed, and its edit time, and nothing else has changed. */
  lemma EditEffect(s: State, id: string, u: string, content: string, at: int)
    ensures var op := Edit(id, u, content, at);
            var s' := Step(s, Write(op));
            if Own(s.store, id, u) && at - s.store.msgs[id].createdAt <= 15 * 60 * 1000 then
              var m := s.store.msgs[id];
              && id in s'.store.msgs && s'.store.msgs[id].content == Trim(content) && s'.store.msgs[id].editedAt == Some(at)
              && s'.store.msgs[id].(content := m.content, editedAt := m.editedAt) == m
              && OnlyMessage(s.store, s'.store, id, s'.store.msgs[id])
              && Told(s, s', op, Ok(Shown(s'.store.msgs[id])))
            else
              Told(s, s', op, Err(EditNotAllowed)) && s'.store == s.store
  {
  }

  /** A creation goes through exactly for a member whose content is not blank; then there is one more
      message, the latest, unedited, undeleted and without reactions. */
  lemma CreateEffect(s: State, id: string, roomId: string, u: string, name: string, content: string, at: int, isMember: bool)
    requires id !in s.store.msgs
    ensures var op := Create(id, roomId, u, name, content, at, isMember);
            var s' := Step(s, Write(op));
            if isMember && !Blank(content) then
              && id in s'.store.msgs
              && s'.store.msgs[id] == Message(id, roomId, u, name, Trim(content), map[], at, None, None)
              && s'.store.msgs - {id} == s.store.msgs && s'.store.order == s.store.order + [id]
              && Told(s, s', op, Ok(Shown(s'.store.msgs[id])))
            else
              && Told(s, s', op, Err(if isMember then ContentRequired else NotMember)) && s'.store == s.store
  {
    var _, _ := TrimIsTheCore(content);
  }

  /** The answer to a toggle shows the message as it is then stored; no other message, and nothing of
      this one but its reactions, has changed. */
  lemma ToggleEffect(store: Store, c: Call)
    ensures var (store', reply) := Toggle(store, c);
            if Reachable(store, c.messageId) then
              && c.messageId in store'.msgs
              && reply == Ok(Shown(store'.msgs[c.messageId]))
              && store'.msgs[c.messageId].(reactions := map[]) == store.msgs[c.messageId].(reactions := map[])
              && OnlyMessage(store, store', c.messageId, store'.msgs[c.messageId])
            else
              reply == Err(MessageNotFound) && store' == store
  {
  }
}
