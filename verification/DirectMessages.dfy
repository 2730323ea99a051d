/** Finding or creating the direct-message room of two users: the key, and the race between
    concurrent calls, decided by the unique index on room names. */
module DirectMessages {
  import opened Common
  import opened Rooms
  import opened RoomLaws
  import opened RoomServices
  import opened RoomEffects

  /* The key */

  /** Both ids in order, joined by a colon. */
  function DmKey(a: string, b: string): string {
    if Leq(a, b) then a + ":" + b else b + ":" + a
  }

  lemma {:induction false} LeqTotal(a: string, b: string)
    ensures Leq(a, b) || Leq(b, a)
  {
    if a != [] && b != [] {
      LeqTotal(a[1..], b[1..]);
    }
  }

  lemma {:induction false} LeqAntisymmetric(a: string, b: string)
    requires Leq(a, b) && Leq(b, a)
    ensures a == b
  {
    if a != [] && b != [] {
      LeqAntisymmetric(a[1..], b[1..]);
      assert a == [a[0]] + a[1..] && b == [b[0]] + b[1..];
    }
  }

  /** The key does not depend on who asks. */
  lemma DmKeySymmetric(a: string, b: string)
    ensures DmKey(a, b) == DmKey(b, a)
  {
    LeqTotal(a, b);
    if Leq(a, b) && Leq(b, a) {
      LeqAntisymmetric(a, b);
    }
  }

  /** Ids without a colon are recovered from the key, up to their order. */
  lemma DmKeyInjective(a: string, b: string, c: string, d: string)
    requires ':' !in a && ':' !in b && ':' !in c && ':' !in d
    requires DmKey(a, b) == DmKey(c, d)
    ensures (a == c && b == d) || (a == d && b == c)
  {
    var (x, y) := if Leq(a, b) then (a, b) else (b, a);
    var (u, v) := if Leq(c, d) then (c, d) else (d, c);
    SplitAtColon(x, y, u, v);
  }

  /** With a colon in an id two pairs may share a key. */
  lemma ColonsCollide()
    ensures DmKey("a", "b:c") == DmKey("a:b", "c")
  {
  }

  /* The race */

  ghost predicate DmFor(w: World, id: string, key: string) {
    IsDm(w, id) && w.rooms[id].name == key
  }

  ghost predicate GroupHolds(w: World, name: string) {
    exists id <- w.rooms :: w.rooms[id].kind.Group? && w.rooms[id].name == name
  }

  /** findOne({type: 'dm', dmKey}). */
  ghost function FindDm(w: World, key: string): (found: Option<string>)
    ensures found.Some? ==> DmFor(w, found.value, key)
    ensures found.None? ==> forall id :: !DmFor(w, id, key)
  {
    if exists id :: DmFor(w, id, key) then
      var id :| DmFor(w, id, key);
      Some(id)
    else None
  }

  /** Where a call stands.  `byGroup`, a history variable, says whether a group room held the name
      when the call's insert was refused. */
  datatype Phase = Looking | Inserting | Clashed(byGroup: bool) | Returned(id: string) | Threw(byGroup: bool)

  /** A call past its validation: two distinct users, the target known to exist. */
  datatype Call = Call(requester: string, target: string, phase: Phase) {
    function Key(): string {
      DmKey(requester, target)
    }
  }

  datatype State = State(w: World, calls: map<nat, Call>)

  datatype Event =
    | Begin(c: nat, requester: string, target: string)
    | Look(c: nat)
    | Insert(c: nat, id: string)
    | LookAgain(c: nat)
    | Elsewhere(op: Op)

  ghost predicate Enabled(s: State, e: Event) {
    match e
    case Begin(c, requester, target) => c !in s.calls && requester != target
    case Look(c) => c in s.calls && s.calls[c].phase.Looking?
    case Insert(c, id) => c in s.calls && s.calls[c].phase.Inserting? && id !in s.w.rooms
    case LookAgain(c) => c in s.calls && s.calls[c].phase.Clashed?
    case Elsewhere(op) => OpOk(s.w, op) && !op.OpCreateDm?
  }

  ghost function Step(s: State, e: Event): State
    requires Enabled(s, e)
  {
    match e
    case Begin(c, requester, target) =>
      s.(calls := s.calls[c := Call(requester, target, Looking)])
    case Look(c) =>
      var found := FindDm(s.w, s.calls[c].Key());
      s.(calls := s.calls[c := s.calls[c].(phase := if found.Some? then Returned(found.value) else Inserting)])
    case Insert(c, id) =>
      var call := s.calls[c];
      var (w', r) := CreateDm(s.w, id, call.requester, call.target, call.Key());
      State(w', s.calls[c := call.(phase := if r.Ok? then Returned(id) else Clashed(GroupHolds(s.w, call.Key())))])
    case LookAgain(c) =>
      var found := FindDm(s.w, s.calls[c].Key());
      s.(calls := s.calls[c := s.calls[c].(phase :=
        if found.Some? then Returned(found.value) else Threw(s.calls[c].phase.byGroup))])
    case Elsewhere(op) =>
      s.(w := Rooms.Step(s.w, op).0)
  }

  ghost predicate Possible(s: State, es: seq<Event>)
    decreases |es|
  {
    es == [] || (Enabled(s, es[0]) && Possible(Step(s, es[0]), es[1..]))
  }

  ghost function Run(s: State, es: seq<Event>): State
    requires Possible(s, es)
    decreases |es|
  {
    if es == [] then s else Run(Step(s, es[0]), es[1..])
  }

  /** A call that returned names the room of its pair; one refused by no group room was refused by
      that room; one that threw was refused by a group room. */
  ghost predicate CallOk(w: World, call: Call) {
    && call.requester != call.target
    && match call.phase
       case Looking => true
       case Inserting => true
       case Returned(id) => DmFor(w, id, call.Key())
       case Clashed(byGroup) => byGroup || exists id :: DmFor(w, id, call.Key())
       case Threw(byGroup) => byGroup
  }

  ghost predicate StateOk(s: State) {
    Inv(s.w) && forall c <- s.calls :: CallOk(s.w, s.calls[c])
  }

  /** Direct-message rooms stay, so what was found stays found. */
  lemma CallStaysOk(w: World, w': World, call: Call)
    requires CallOk(w, call)
    requires forall id :: IsDm(w, id) ==> KeepsDm(w, w', id)
    ensures CallOk(w', call)
  {
    if call.phase.Clashed? && !call.phase.byGroup {
      var id :| DmFor(w, id, call.Key());
      assert DmFor(w', id, call.Key());
    }
  }

  lemma HolderIsGroupOrDm(w: World, name: string)
    requires NameInUse(w, name)
    ensures GroupHolds(w, name) || exists id :: DmFor(w, id, name)
  {
    var r :| r in w.rooms && w.rooms[r].name == name;
    assert w.rooms[r].kind.Group? || DmFor(w, r, name);
  }

  lemma InsertKeepsOk(s: State, c: nat, id: string)
    requires StateOk(s) && Enabled(s, Insert(c, id))
    ensures StateOk(Step(s, Insert(c, id)))
  {
    var s', call := Step(s, Insert(c, id)), s.calls[c];
    assert CallOk(s.w, call);
    var op := OpCreateDm(id, call.requester, call.target, call.Key());
    StepKeepsInv(s.w, op);
    forall d | IsDm(s.w, d)
      ensures KeepsDm(s.w, s'.w, d)
    {
      StepKeepsDm(s.w, op, d);
    }
    forall d <- s'.calls
      ensures CallOk(s'.w, s'.calls[d])
    {
      if d != c {
        CallStaysOk(s.w, s'.w, s.calls[d]);
      } else if NameInUse(s.w, call.Key()) {
        HolderIsGroupOrDm(s.w, call.Key());
        assert s'.w == s.w && s'.calls[c].Key() == call.Key();
      }
    }
  }

  lemma ElsewhereKeepsOk(s: State, op: Op)
    requires StateOk(s) && Enabled(s, Elsewhere(op))
    ensures StateOk(Step(s, Elsewhere(op)))
  {
    var s' := Step(s, Elsewhere(op));
    StepKeepsInv(s.w, op);
    forall d | IsDm(s.w, d)
      ensures KeepsDm(s.w, s'.w, d)
    {
      StepKeepsDm(s.w, op, d);
    }
    forall d <- s'.calls
      ensures CallOk(s'.w, s'.calls[d])
    {
      CallStaysOk(s.w, s'.w, s.calls[d]);
    }
  }

  lemma StepKeepsOk(s: State, e: Event)
    requires StateOk(s) && Enabled(s, e)
    ensures StateOk(Step(s, e))
  {
    match e
    case Insert(c, id) => InsertKeepsOk(s, c, id);
    case Elsewhere(op) => ElsewhereKeepsOk(s, op);
    case Begin(_, _, _) =>
    case Look(c) => assert CallOk(s.w, s.calls[c]);
    case LookAgain(c) => assert CallOk(s.w, s.calls[c]);
  }

  lemma {:induction false} RunKeepsOk(s: State, es: seq<Event>)
    requires StateOk(s) && Possible(s, es)
    ensures StateOk(Run(s, es))
    decreases |es|
  {
    if es != [] {
      StepKeepsOk(s, es[0]);
      RunKeepsOk(Step(s, es[0]), es[1..]);
    }
  }

  /** A call's answer never changes. */
  lemma {:induction false} AnswersStay(s: State, es: seq<Event>, c: nat)
    requires Possible(s, es) && c in s.calls && s.calls[c].phase.Returned?
    ensures c in Run(s, es).calls && Run(s, es).calls[c] == s.calls[c]
    decreases |es|
  {
    if es != [] {
      AnswersStay(Step(s, es[0]), es[1..], c);
    }
  }

  /** In every interleaving of any number of calls with each other and with everything else that
      happens to rooms: at most one direct-message room per pair of users, and all calls for a pair,
      whoever asked, that have returned name that room, which is still there. */
  lemma {:induction false} OneRoomPerPair(s: State, es: seq<Event>, c: nat, d: nat)
    requires StateOk(s) && Possible(s, es)
    ensures var t := Run(s, es);
            && (forall key, i, j :: DmFor(t.w, i, key) && DmFor(t.w, j, key) ==> i == j)
            && (c in t.calls && t.calls[c].phase.Returned? ==> DmFor(t.w, t.calls[c].phase.id, t.calls[c].Key()))
    ensures var t := Run(s, es);
            c in t.calls && d in t.calls && t.calls[c].phase.Returned? && t.calls[d].phase.Returned?
            && {t.calls[c].requester, t.calls[c].target} == {t.calls[d].requester, t.calls[d].target}
            ==> t.calls[c].phase.id == t.calls[d].phase.id
  {
    RunKeepsOk(s, es);
    var t := Run(s, es);
    forall key, i, j | DmFor(t.w, i, key) && DmFor(t.w, j, key)
      ensures i == j
    {
      assert NamesOk(t.w);
    }
    if c in t.calls && d in t.calls && t.calls[c].phase.Returned? && t.calls[d].phase.Returned?
       && {t.calls[c].requester, t.calls[c].target} == {t.calls[d].requester, t.calls[d].target} {
      assert CallOk(t.w, t.calls[c]) && CallOk(t.w, t.calls[d]);
      SamePairSameKey(t.calls[c], t.calls[d]);
    }
  }

  lemma SamePairSameKey(c: Call, d: Call)
    requires c.requester != c.target && d.requester != d.target
    requires {c.requester, c.target} == {d.requester, d.target}
    ensures c.Key() == d.Key()
  {
    assert c.requester in {d.requester, d.target} && c.target in {d.requester, d.target};
    DmKeySymmetric(c.requester, c.target);
  }

  /** A call on valid users throws only if a group room held the pair's key as its name when the
      call tried to insert. */
  lemma ThrowsOnlyOnGroupName(s: State, es: seq<Event>, c: nat)
    requires StateOk(s) && Possible(s, es)
    requires c in Run(s, es).calls && Run(s, es).calls[c].phase.Threw?
    ensures Run(s, es).calls[c].phase.byGroup
  {
    RunKeepsOk(s, es);
    assert CallOk(Run(s, es).w, Run(s, es).calls[c]);
  }

  /** Either look answers with the pair's room exactly when there is one; failing that the first goes
      on to insert and the second throws. */
  lemma LookEffect(s: State, c: nat)
    requires c in s.calls && (s.calls[c].phase.Looking? || s.calls[c].phase.Clashed?)
    ensures var call := s.calls[c];
            var e := if call.phase.Looking? then Look(c) else LookAgain(c);
            && Enabled(s, e) && Step(s, e).w == s.w
            && var phase := Step(s, e).calls[c].phase;
               if exists d :: DmFor(s.w, d, call.Key()) then phase.Returned? && DmFor(s.w, phase.id, call.Key())
               else phase == if call.phase.Looking? then Inserting else Threw(call.phase.byGroup)
  {
  }

  /** The insert opens the room of both users exactly when no room, of a pair or of a group, holds the
      key; otherwise it changes no room and the call goes on to look again. */
  lemma InsertEffect(s: State, c: nat, id: string)
    requires Enabled(s, Insert(c, id))
    ensures var call, s' := s.calls[c], Step(s, Insert(c, id));
            if GroupHolds(s.w, call.Key()) || exists d :: DmFor(s.w, d, call.Key()) then
              s'.w == s.w && s'.calls[c] == call.(phase := Clashed(GroupHolds(s.w, call.Key())))
            else
              && DmOpened(s.w, s'.w, id, call.requester, call.target, call.Key())
              && DmFor(s'.w, id, call.Key())
              && s'.calls[c] == call.(phase := Returned(id))
  {
    var key := s.calls[c].Key();
    if NameInUse(s.w, key) {
      HolderIsGroupOrDm(s.w, key);
    }
  }

  datatype DmError = SelfDm | UserNotFound | Duplicate

  /** One call with nothing in between: look, insert, and on a duplicate look once more. */
  method FindOrCreateDm(service: RoomService, requesterId: string, targetId: string, targetExists: bool, id: string)
    returns (r: Result<string, DmError>)
    requires id !in service.rooms
    modifies service
    ensures var key, w, w' := DmKey(requesterId, targetId), old(service.State()), service.State();
            if requesterId == targetId then r == Err(SelfDm) && w' == w
            else if !targetExists then r == Err(UserNotFound) && w' == w
            else if exists d :: DmFor(w, d, key) then r.Ok? && DmFor(w, r.value, key) && w' == w
            else
              && w' == CreateDm(w, id, requesterId, targetId, key).0
              && (GroupHolds(w, key) ==> r == Err(Duplicate) && w' == w)
              && (!GroupHolds(w, key) ==> r == Ok(id) && DmOpened(w, w', id, requesterId, targetId, key))
  {
    if requesterId == targetId {
      return Err(SelfDm);
    }
    if !targetExists {
      return Err(UserNotFound);
    }
    var dmKey := DmKey(requesterId, targetId);
    var existing := Lookup(service, dmKey);
    if existing.Some? {
      return Ok(existing.value);
    }
    var created := service.CreateDm(id, requesterId, targetId, dmKey);
    if created.Ok? {
      return Ok(id);
    }
    HolderIsGroupOrDm(service.State(), dmKey);
    existing := Lookup(service, dmKey);
    r := if existing.Some? then Ok(existing.value) else Err(Duplicate);
  }

  method Lookup(service: RoomService, dmKey: string) returns (found: Option<string>)
    ensures found.Some? ==> DmFor(service.State(), found.value, dmKey)
    ensures found.None? ==> forall d :: !DmFor(service.State(), d, dmKey)
  {
    if exists d <- service.rooms :: service.rooms[d].kind.Dm? && service.rooms[d].name == dmKey {
      var d :| d in service.rooms && service.rooms[d].kind.Dm? && service.rooms[d].name == dmKey;
      found := Some(d);
    } else {
      found := None;
    }
  }
}
