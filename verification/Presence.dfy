/** Who is online: sockets tracked per user, the online and per-room sorted sets, and the eviction
    job.  Redis executes the commands of one instance in the order they are issued. */
module Presence {
  import opened Common

  const STALE_MS := 5 * 60 * 1000

  type Scores = map<string, int>

  /** The module's map of sockets, and the sorted sets `online:users` and `presence:{room}`. */
  datatype Store = Store(userSockets: map<string, set<string>>, online: Scores, presence: map<string, Scores>)

  function SocketsOf(st: Store, u: string): set<string> {
    if u in st.userSockets then st.userSockets[u] else {}
  }

  function PresenceOf(st: Store, room: string): Scores {
    if room in st.presence then st.presence[room] else map[]
  }

  /** Tracking a new socket and the ZADD of markOnline, issued in the same turn. */
  function Connect(st: Store, u: string, socket: string, now: int): Store {
    st.(userSockets := st.userSockets[u := SocketsOf(st, u) + {socket}], online := st.online[u := now])
  }

  /** The ZADD of joinPresence. */
  function JoinPresence(st: Store, u: string, room: string, now: int): Store {
    st.(presence := st.presence[room := PresenceOf(st, room)[u := now]])
  }

  function Untrack(st: Store, u: string, socket: string): Store {
    var left := SocketsOf(st, u) - {socket};
    st.(userSockets := if left == {} then st.userSockets - {u} else st.userSockets[u := left])
  }

  function Purged(presence: map<string, Scores>, u: string, rooms: set<string>): map<string, Scores> {
    map r <- presence :: if r in rooms then presence[r] - {u} else presence[r]
  }

  lemma PurgeOneMore(presence: map<string, Scores>, u: string, rooms: set<string>, r: string)
    ensures r !in presence ==> Purged(presence, u, rooms + {r}) == Purged(presence, u, rooms)
    ensures var p := Purged(presence, u, rooms);
            r in presence ==> Purged(presence, u, rooms + {r}) == p[r := p[r] - {u}]
  {
    if r in presence {
      var p := Purged(presence, u, rooms);
      assert p[r] - {u} == presence[r] - {u};
    }
  }

  /** The pipeline of markOffline. */
  function MarkOffline(st: Store, u: string, rooms: set<string>): Store {
    st.(online := st.online - {u}, presence := Purged(st.presence, u, rooms))
  }

  /** The disconnect handler: only the user's last socket takes the user offline. */
  function Disconnect(st: Store, u: string, socket: string, rooms: set<string>): Store {
    var st1 := Untrack(st, u, socket);
    if u in st1.userSockets then st1 else MarkOffline(st1, u, rooms)
  }

  /** The eviction job's ZREMRANGEBYSCORE -inf cutoff, the cutoff included. */
  function Evict(st: Store, now: int): Store {
    st.(online := map u <- st.online | st.online[u] > now - STALE_MS :: st.online[u])
  }

  /** Whether getRoomPresence lists the user. */
  predicate Listed(st: Store, room: string, u: string, now: int) {
    u in PresenceOf(st, room) && u in st.online && st.online[u] >= now - STALE_MS
  }

  /** The order of a sorted set: by score, then by member. */
  predicate Precedes(scores: Scores, u: string, v: string) {
    u in scores && v in scores && u != v && (scores[u] < scores[v] || (scores[u] == scores[v] && Leq(u, v)))
  }

  ghost predicate Ranged(scores: Scores, users: seq<string>) {
    forall i, j | 0 <= i < j < |users| :: Precedes(scores, users[i], users[j])
  }

  /** What ZRANGE 0 -1 promises: all members, in order. */
  ghost predicate IsRange(scores: Scores, users: seq<string>) {
    Ranged(scores, users) && forall u :: u in users <==> u in scores
  }

  lemma RangedPush(scores: Scores, members: seq<string>, i: nat, users: seq<string>)
    requires i < |members| && Ranged(scores, members) && Ranged(scores, users)
    requires forall u <- users :: u in members[..i]
    ensures Ranged(scores, users + [members[i]])
  {
    forall k | 0 <= k < |users|
      ensures Precedes(scores, users[k], members[i])
    {
      assert users[k] in members[..i];
      var j :| 0 <= j < i && members[..i][j] == users[k];
      assert Precedes(scores, members[j], members[i]);
    }
  }

  class PresenceServer {
    var userSockets: map<string, set<string>>
    var online: Scores
    var presence: map<string, Scores>

    ghost function State(): Store
      reads this
    {
      Store(userSockets, online, presence)
    }

    constructor ()
      ensures State() == Store(map[], map[], map[])
    {
      userSockets, online, presence := map[], map[], map[];
    }

    method OnConnection(userId: string, socketId: string, now: int)
      modifies this
      ensures State() == Connect(old(State()), userId, socketId, now)
    {
      if userId !in userSockets {
        userSockets := userSockets[userId := {}];
      }
      userSockets := userSockets[userId := userSockets[userId] + {socketId}];
      online := online[userId := now];
    }

    method JoinRoomPresence(userId: string, roomId: string, now: int)
      modifies this`presence
      ensures State() == JoinPresence(old(State()), userId, roomId, now)
    {
      var scores := if roomId in presence then presence[roomId] else map[];
      presence := presence[roomId := scores[userId := now]];
    }

    /** The loop that follows a connection, with nothing in between. */
    method JoinRooms(userId: string, roomIds: seq<string>, now: int)
      modifies this`presence
      ensures userSockets == old(userSockets) && online == old(online)
      ensures forall r :: PresenceOf(State(), r)
                       == if r in roomIds then PresenceOf(old(State()), r)[userId := now] else PresenceOf(old(State()), r)
    {
      var i := 0;
      while i < |roomIds|
        invariant 0 <= i <= |roomIds|
        invariant userSockets == old(userSockets) && online == old(online)
        invariant forall r :: PresenceOf(State(), r)
                    == if r in roomIds[..i] then PresenceOf(old(State()), r)[userId := now] else PresenceOf(old(State()), r)
      {
        assert roomIds[..i + 1] == roomIds[..i] + [roomIds[i]];
        JoinRoomPresence(userId, roomIds[i], now);
        i := i + 1;
      }
      assert roomIds[..i] == roomIds;
    }

    /** `roomIds` is what the socket's own room list holds at that moment. */
    method OnDisconnect(userId: string, socketId: string, roomIds: seq<string>)
      modifies this
      ensures State() == Disconnect(old(State()), userId, socketId, Elements(roomIds))
    {
      if userId in userSockets {
        var sockets := userSockets[userId] - {socketId};
        userSockets := userSockets[userId := sockets];
        if sockets == {} {
          userSockets := userSockets - {userId};
        }
      }
      if userId !in userSockets {
        TakeOffline(userId, roomIds);
      }
    }

    method TakeOffline(userId: string, roomIds: seq<string>)
      modifies this`online, this`presence
      ensures State() == MarkOffline(old(State()), userId, Elements(roomIds))
    {
      online := online - {userId};
      var i := 0;
      while i < |roomIds|
        invariant 0 <= i <= |roomIds| && online == old(online) - {userId}
        invariant presence == Purged(old(presence), userId, Elements(roomIds[..i]))
      {
        var r := roomIds[i];
        assert roomIds[..i + 1] == roomIds[..i] + [r];
        assert Elements(roomIds[..i + 1]) == Elements(roomIds[..i]) + {r};
        PurgeOneMore(old(presence), userId, Elements(roomIds[..i]), r);
        if r in presence {
          presence := presence[r := presence[r] - {userId}];
        }
        i := i + 1;
      }
      assert roomIds[..i] == roomIds;
    }

    method EvictStaleUsers(now: int) returns (removed: int)
      modifies this`online
      ensures State() == Evict(old(State()), now)
      ensures removed == |old(online)| - |online|
    {
      var before := |online|;
      online := map u <- online | online[u] > now - STALE_MS :: online[u];
      removed := before - |online|;
    }

    /** `members` is the reply to the ZRANGE over the whole set. */
    method GetRoomPresence(roomId: string, members: seq<string>, now: int) returns (users: seq<string>)
      requires IsRange(PresenceOf(State(), roomId), members)
      ensures forall u :: u in users <==> Listed(State(), roomId, u, now)
      ensures Ranged(PresenceOf(State(), roomId), users)
    {
      users := [];
      var cutoff := now - STALE_MS;
      var i := 0;
      while i < |members|
        invariant 0 <= i <= |members|
        invariant forall u :: u in users <==> u in members[..i] && Listed(State(), roomId, u, now)
        invariant Ranged(PresenceOf(State(), roomId), users)
      {
        var u := members[i];
        assert u in members && members[..i + 1] == members[..i] + [u];
        if u in online && online[u] >= cutoff {
          RangedPush(PresenceOf(State(), roomId), members, i, users);
          users := users + [u];
        }
        i := i + 1;
      }
      assert members[..i] == members;
    }
  }

  /** A disconnect forgets the one socket.  When it was the last tracked one, the user leaves the online
      set and the sets of the rooms the socket lists; otherwise both stay.  Nobody else is touched. */
  lemma DisconnectEffect(st: Store, u: string, socket: string, rooms: set<string>)
    ensures var st', last := Disconnect(st, u, socket, rooms), SocketsOf(st, u) <= {socket};
            && SocketsOf(st', u) == SocketsOf(st, u) - {socket}
            && (u in st'.userSockets ==> !last)
            && (forall v | v != u :: SocketsOf(st', v) == SocketsOf(st, v))
            && st'.online == (if last then st.online - {u} else st.online)
            && (forall r :: PresenceOf(st', r) == if last && r in rooms then PresenceOf(st, r) - {u} else PresenceOf(st, r))
  {
    var left := SocketsOf(st, u) - {socket};
    assert left == {} <==> SocketsOf(st, u) <= {socket};
  }

  /* Runs.  What the service does not see is kept beside the store: which sockets are live, which
     have their disconnect handler registered, which went away before that, and when each user last
     connected. */

  datatype World = World(st: Store, owner: map<string, string>, live: set<string>, ready: set<string>, lost: set<string>,
                         lastConnect: map<string, int>, lastEvict: Option<int>, now: int)

  /** `Drop` is a socket going away; its handler runs only if it has been registered by then. */
  datatype Event =
    | Open(socket: string, user: string)
    | JoinLoop(socket: string, room: string)
    | Register(socket: string)
    | Drop(socket: string, rooms: set<string>)
    | Eviction
    | Tick(to: int)

  predicate Enabled(w: World, e: Event) {
    match e
    case Open(socket, _) => socket !in w.owner
    case JoinLoop(socket, _) => socket in w.owner
    case Register(socket) => socket in w.owner
    case Drop(socket, _) => socket in w.live && socket in w.owner
    case Eviction => true
    case Tick(to) => w.now <= to
  }

  function Step(w: World, e: Event): World
    requires Enabled(w, e)
  {
    match e
    case Open(socket, u) =>
      w.(st := Connect(w.st, u, socket, w.now), owner := w.owner[socket := u], live := w.live + {socket},
         lastConnect := w.lastConnect[u := w.now])
    case JoinLoop(socket, room) => w.(st := JoinPresence(w.st, w.owner[socket], room, w.now))
    case Register(socket) => w.(ready := w.ready + {socket})
    case Drop(socket, rooms) =>
      w.(st := if socket in w.ready then Disconnect(w.st, w.owner[socket], socket, rooms) else w.st,
         live := w.live - {socket}, lost := if socket in w.ready then w.lost else w.lost + {socket})
    case Eviction => w.(st := Evict(w.st, w.now), lastEvict := Some(w.now))
    case Tick(to) => w.(now := to)
  }

  ghost predicate Possible(w: World, es: seq<Event>)
    decreases |es|
  {
    es == [] || (Enabled(w, es[0]) && Possible(Step(w, es[0]), es[1..]))
  }

  ghost function Run(w: World, es: seq<Event>): World
    requires Possible(w, es)
    decreases |es|
  {
    if es == [] then w else Run(Step(w, es[0]), es[1..])
  }

  lemma RunCons(w: World, e: Event, es: seq<Event>)
    requires Enabled(w, e)
    ensures Possible(w, [e] + es) <==> Possible(Step(w, e), es)
    ensures Possible(w, [e] + es) ==> Run(w, [e] + es) == Run(Step(w, e), es)
  {
    assert ([e] + es)[1..] == es;
  }

  /** A run of three possible steps. */
  lemma RunThree(w: World, a: Event, b: Event, c: Event)
    requires Enabled(w, a) && Enabled(Step(w, a), b) && Enabled(Step(Step(w, a), b), c)
    ensures Possible(w, [a, b, c]) && Run(w, [a, b, c]) == Step(Step(Step(w, a), b), c)
  {
    assert [a, b, c] == [a] + ([b] + ([c] + []));
    RunCons(w, a, [b] + ([c] + []));
    RunCons(Step(w, a), b, [c] + []);
    RunCons(Step(Step(w, a), b), c, []);
  }

  const START := World(Store(map[], map[], map[]), map[], {}, {}, {}, map[], None, 0)

  /** Whatever the order of events: no empty set is tracked, and an online score is the time of the
      user's last connection. */
  ghost predicate UserOk(w: World, u: string) {
    && (u in w.st.userSockets ==> w.st.userSockets[u] != {})
    && (u in w.st.online ==> u in w.lastConnect && w.st.online[u] == w.lastConnect[u])
    && (u in w.lastConnect ==> w.lastConnect[u] <= w.now)
  }

  lemma StepKeepsUserOk(w: World, e: Event, u: string)
    requires Enabled(w, e) && UserOk(w, u)
    ensures UserOk(Step(w, e), u)
  {
  }

  lemma {:induction false} RunKeepsUserOk(w: World, es: seq<Event>, u: string)
    requires Possible(w, es) && UserOk(w, u)
    ensures UserOk(Run(w, es), u)
    decreases |es|
  {
    if es != [] {
      StepKeepsUserOk(w, es[0], u);
      RunKeepsUserOk(Step(w, es[0]), es[1..], u);
    }
  }

  /** In every run: userSockets holds no empty set, and anyone listed connected within five minutes. */
  lemma ListedConnectedRecently(es: seq<Event>, room: string, u: string)
    requires Possible(START, es)
    ensures var w := Run(START, es);
            && (u in w.st.userSockets ==> w.st.userSockets[u] != {})
            && (Listed(w.st, room, u, w.now) ==>
                  u in w.lastConnect && w.now - STALE_MS <= w.lastConnect[u] <= w.now)
  {
    RunKeepsUserOk(START, es, u);
  }

  /* Tracked sockets and live ones. */

  function SocketsIn(w: World, sockets: set<string>, u: string): set<string> {
    set s <- sockets | s in w.owner && w.owner[s] == u
  }

  function LiveSockets(w: World, u: string): set<string> {
    SocketsIn(w, w.live, u)
  }

  /** The user's sockets that went away before their handler was registered. */
  function Ghosts(w: World, u: string): set<string> {
    SocketsIn(w, w.lost, u)
  }

  ghost predicate Evicted(w: World, u: string) {
    w.lastEvict.Some? && u in w.lastConnect && w.lastConnect[u] <= w.lastEvict.value - STALE_MS
  }

  /** The user's tracked sockets are the live ones and the ghosts, and someone with a tracked socket
      is online unless evicted. */
  ghost predicate TrackedOk(w: World, u: string) {
    && UserOk(w, u)
    && w.live <= w.owner.Keys && w.lost <= w.owner.Keys && w.live !! w.lost
    && SocketsOf(w.st, u) == LiveSockets(w, u) + Ghosts(w, u)
    && (w.lastEvict.Some? ==> w.lastEvict.value <= w.now)
    && (u in w.st.online ==> SocketsOf(w.st, u) != {} && !Evicted(w, u))
    && (SocketsOf(w.st, u) != {} ==> u in w.lastConnect && (u in w.st.online || Evicted(w, u)))
  }

  lemma DropKeepsTracked(w: World, e: Event, u: string)
    requires Enabled(w, e) && e.Drop? && TrackedOk(w, u)
    ensures TrackedOk(Step(w, e), u)
  {
    var v := Step(w, e);
    if w.owner[e.socket] == u {
      assert LiveSockets(v, u) == LiveSockets(w, u) - {e.socket};
      assert Ghosts(v, u) == Ghosts(w, u) + if e.socket in w.ready then {} else {e.socket};
    } else {
      assert LiveSockets(v, u) == LiveSockets(w, u) && Ghosts(v, u) == Ghosts(w, u);
    }
  }

  lemma StepKeepsTracked(w: World, e: Event, u: string)
    requires Enabled(w, e) && TrackedOk(w, u)
    ensures TrackedOk(Step(w, e), u)
  {
    var v := Step(w, e);
    match e {
      case Drop(_, _) => DropKeepsTracked(w, e, u);
      case Open(socket, o) =>
        assert LiveSockets(v, u) == LiveSockets(w, u) + if o == u then {socket} else {};
        assert Ghosts(v, u) == Ghosts(w, u);
      case _ => assert LiveSockets(v, u) == LiveSockets(w, u) && Ghosts(v, u) == Ghosts(w, u);
    }
  }

  lemma {:induction false} RunKeepsTracked(w: World, es: seq<Event>, u: string)
    requires Possible(w, es) && TrackedOk(w, u)
    ensures TrackedOk(Run(w, es), u)
    decreases |es|
  {
    if es != [] {
      StepKeepsTracked(w, es[0], u);
      RunKeepsTracked(Step(w, es[0]), es[1..], u);
    }
  }

  /** In every run: the tracked sockets are the live ones and the ghosts, so they are the live ones
      exactly when there is no ghost; and a room lists exactly the users in its set who have a live
      socket or a ghost and last connected at most five minutes ago, less those an eviction in this
      very millisecond caught on the cutoff. */
  lemma ListedIff(es: seq<Event>, room: string, u: string)
    requires Possible(START, es)
    ensures var w := Run(START, es);
            && SocketsOf(w.st, u) == LiveSockets(w, u) + Ghosts(w, u)
            && (SocketsOf(w.st, u) == LiveSockets(w, u) <==> Ghosts(w, u) == {})
            && (Listed(w.st, room, u, w.now) <==>
                  && u in PresenceOf(w.st, room)
                  && LiveSockets(w, u) + Ghosts(w, u) != {}
                  && u in w.lastConnect && w.lastConnect[u] >= w.now - STALE_MS
                  && !(w.lastEvict == Some(w.now) && w.lastConnect[u] == w.now - STALE_MS))
  {
    assert TrackedOk(START, u);
    RunKeepsTracked(START, es, u);
  }

  /* Runs in which a socket goes away only after its handler is registered. */

  ghost predicate Disciplined(w: World, es: seq<Event>)
    requires Possible(w, es)
    decreases |es|
  {
    es == [] ||
    ((es[0].Drop? ==> es[0].socket in w.ready) && Disciplined(Step(w, es[0]), es[1..]))
  }

  /** A run is disciplined exactly when it leaves no socket lost. */
  lemma {:induction false} DisciplinedIffNoneLost(w: World, es: seq<Event>)
    requires Possible(w, es)
    ensures w.lost <= Run(w, es).lost
    ensures w.lost !! w.live && w.live <= w.owner.Keys && w.lost <= w.owner.Keys ==>
              (Disciplined(w, es) <==> Run(w, es).lost == w.lost)
    decreases |es|
  {
    if es != [] {
      DisciplinedIffNoneLost(Step(w, es[0]), es[1..]);
    }
  }

  /** So there nobody has a ghost: tracked sockets are the live ones, and anyone listed has one. */
  lemma ListedIffConnected(es: seq<Event>, room: string, u: string)
    requires Possible(START, es) && Disciplined(START, es)
    ensures var w := Run(START, es);
            && SocketsOf(w.st, u) == LiveSockets(w, u)
            && (Listed(w.st, room, u, w.now) <==>
                  && u in PresenceOf(w.st, room)
                  && LiveSockets(w, u) != {}
                  && u in w.lastConnect && w.lastConnect[u] >= w.now - STALE_MS
                  && !(w.lastEvict == Some(w.now) && w.lastConnect[u] == w.now - STALE_MS))
  {
    ListedIff(es, room, u);
    DisciplinedIffNoneLost(START, es);
    assert Ghosts(Run(START, es), u) == {};
  }

  /** A connect is the only thing that refreshes the online score: with a socket open for longer than
      five minutes and no new connection, the user is no longer listed. */
  lemma LongSessionIsNotListed(room: string, u: string, s: string)
    ensures var es := [Open(s, u), JoinLoop(s, room), Register(s), Tick(STALE_MS + 1)];
            && Possible(START, es) && Disciplined(START, es)
            && var w := Run(START, es);
               s in LiveSockets(w, u) && u in PresenceOf(w.st, room) && !Listed(w.st, room, u, w.now)
  {
    var first, rest := Open(s, u), [JoinLoop(s, room), Register(s), Tick(STALE_MS + 1)];
    RunCons(START, first, rest);
    RunThree(Step(START, first), rest[0], rest[1], rest[2]);
    assert [first, rest[0], rest[1], rest[2]] == [first] + rest;
    DisciplinedIffNoneLost(START, [first] + rest);
    var w := Run(START, [first] + rest);
    assert s in w.live && w.owner[s] == u;
  }

  /** A socket that goes away before its handler is registered stays tracked, and its user listed. */
  lemma EarlyDropLeavesAGhost(room: string, u: string, s: string)
    ensures var es := [Open(s, u), Drop(s, {}), JoinLoop(s, room)];
            && Possible(START, es)
            && var w := Run(START, es);
               LiveSockets(w, u) == {} && s in SocketsOf(w.st, u) && Listed(w.st, room, u, w.now)
  {
    RunThree(START, Open(s, u), Drop(s, {}), JoinLoop(s, room));
    assert Run(START, [Open(s, u), Drop(s, {}), JoinLoop(s, room)]).live == {};
  }

  /* Eviction against a system that never evicts. */

  function WithoutEvictions(es: seq<Event>): seq<Event> {
    if es == [] then []
    else if es[0].Eviction? then WithoutEvictions(es[1..])
    else [es[0]] + WithoutEvictions(es[1..])
  }

  /** `v` is `w` had it never evicted: u's entry is the same, or `w` lost it to an eviction. */
  ghost predicate Shadows(w: World, v: World, u: string) {
    && v == w.(st := w.st.(online := v.st.online), lastEvict := None)
    && (w.lastEvict.Some? ==> w.lastEvict.value <= w.now)
    && (u in w.st.online ==> u in v.st.online && v.st.online[u] == w.st.online[u])
    && (u in v.st.online ==>
          (u in w.st.online <==> w.lastEvict.None? || v.st.online[u] > w.lastEvict.value - STALE_MS))
  }

  lemma StepKeepsShadow(w: World, v: World, e: Event, u: string)
    requires Enabled(w, e) && Shadows(w, v, u)
    ensures e.Eviction? ==> Shadows(Step(w, e), v, u)
    ensures !e.Eviction? ==> Enabled(v, e) && Shadows(Step(w, e), Step(v, e), u)
  {
  }

  lemma {:induction false} RunKeepsShadow(w: World, v: World, es: seq<Event>, u: string)
    requires Possible(w, es) && Shadows(w, v, u)
    ensures Possible(v, WithoutEvictions(es))
    ensures Shadows(Run(w, es), Run(v, WithoutEvictions(es)), u)
    decreases |es|
  {
    if es != [] {
      StepKeepsShadow(w, v, es[0], u);
      var v1 := if es[0].Eviction? then v else Step(v, es[0]);
      RunKeepsShadow(Step(w, es[0]), v1, es[1..], u);
      var rest := WithoutEvictions(es[1..]);
      if !es[0].Eviction? {
        assert ([es[0]] + rest)[0] == es[0] && ([es[0]] + rest)[1..] == rest;
      }
    }
  }

  /** Evictions are invisible: at every moment a room lists whom it would list had nobody ever been
      evicted, but for a user whose score is exactly the cutoff in the very millisecond of an eviction. */
  lemma EvictionIsInvisible(es: seq<Event>, room: string, u: string)
    requires Possible(START, es)
    ensures Possible(START, WithoutEvictions(es))
    ensures var w, v := Run(START, es), Run(START, WithoutEvictions(es));
            && v.now == w.now
            && (Listed(w.st, room, u, w.now) <==>
                  && Listed(v.st, room, u, v.now)
                  && !(w.lastEvict == Some(w.now) && v.st.online[u] == w.now - STALE_MS))
  {
    assert Shadows(START, START, u);
    RunKeepsShadow(START, START, es, u);
  }

  /** That case occurs: in the millisecond of an eviction exactly five minutes after connecting, a
      user whom the room would list without evictions is not listed. */
  lemma EvictionShowsForAMillisecond(room: string, u: string, s: string)
    ensures var es := [Open(s, u), JoinLoop(s, room), Tick(STALE_MS), Eviction];
            && Possible(START, es) && Possible(START, WithoutEvictions(es))
            && var w, v := Run(START, es), Run(START, WithoutEvictions(es));
               s in LiveSockets(w, u) && !Listed(w.st, room, u, w.now) && Listed(v.st, room, u, v.now)
  {
    var first, rest := Open(s, u), [JoinLoop(s, room), Tick(STALE_MS), Eviction];
    RunCons(START, first, rest);
    RunThree(Step(START, first), rest[0], rest[1], rest[2]);
    assert [first, rest[0], rest[1], rest[2]] == [first] + rest;
    RunThree(START, first, rest[0], rest[1]);
    assert [first, rest[0], rest[1], rest[2]] == [first, rest[0], rest[1]] + [Eviction];
    NoEvictions([first, rest[0], rest[1]]);
    var w := Run(START, [first] + rest);
    assert s in w.live && w.owner[s] == u;
  }

  lemma {:induction false} NoEvictions(es: seq<Event>)
    requires forall e <- es :: !e.Eviction?
    ensures WithoutEvictions(es + [Eviction]) == es
  {
    if es != [] {
      assert (es + [Eviction])[1..] == es[1..] + [Eviction];
      NoEvictions(es[1..]);
    } else {
      assert [Eviction][1..] == [];
    }
  }
}
