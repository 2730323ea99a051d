/** Rooms, their members and roles, invites, the room cache, unread counters and read receipts:
    the state, and what each route and socket event does to it.  `log` is a history variable:
    no operation reads it. */
module Rooms {
  import opened Common

  const ROOM_CACHE_MS := 5 * 60 * 1000
  const INVITE_MS := 48 * 60 * 60 * 1000

  datatype Role = Plain | Admin | Owner

  function Rank(r: Role): int {
    match r
    case Owner => 3
    case Admin => 2
    case Plain => 1
  }

  datatype Kind = Group | Dm

  datatype Member = Member(userId: string, role: Role, joinedAt: int)

  datatype Room = Room(name: string, description: Option<string>, createdBy: string, members: seq<Member>,
                       isPrivate: bool, kind: Kind, createdAt: int)

  datatype RoomResponse = RoomResponse(id: string, name: string, description: Option<string>, createdBy: string,
                                       memberCount: nat, isPrivate: bool, kind: Kind, createdAt: int)

  function ToRoomResponse(id: string, room: Room): RoomResponse {
    RoomResponse(id, room.name, room.description, room.createdBy, |room.members|,
                 room.isPrivate, room.kind, room.createdAt)
  }

  datatype CacheEntry = CacheEntry(value: RoomResponse, expiresAt: int)

  datatype Invite = Invite(roomId: string, createdBy: string, expiresAt: int)

  datatype Error =
    | RoomNotFound | NotMember | InsufficientRole | KickOwner | TargetNotMember | ChangeOwnerRole
    | InvalidRole | MissingToken | InvalidToken | NameTaken | InvalidCursor

  datatype Reply = View(room: RoomResponse) | Token(token: string) | Done

  /** How a user came into a room. */
  datatype How = Founder | Public | ByInvite(token: string)

  datatype Event =
    | Joined(room: string, user: string, how: How, at: int, isPrivate: bool)
    | Left(room: string, user: string)
    | Closed(room: string)
    | Posted(room: string, user: string)
    | Fetched(room: string, user: string)
    | Invited(token: string, room: string, user: string, at: int)

  datatype World = World(
    rooms: map<string, Room>, unread: map<(string, string), nat>, receipts: map<(string, string), int>,
    cache: map<string, CacheEntry>, invites: map<string, Invite>, now: int, log: seq<Event>)

  type Outcome = (World, Result<Reply, Error>)

  /* Member lists */

  predicate IsMember(ms: seq<Member>, u: string) {
    exists m <- ms :: m.userId == u
  }

  /** The first entry of the user. */
  function Find(ms: seq<Member>, u: string): (r: Option<Member>)
    ensures r.Some? <==> IsMember(ms, u)
    ensures r.Some? ==> r.value in ms && r.value.userId == u
  {
    if ms == [] then None
    else if ms[0].userId == u then Some(ms[0])
    else Find(ms[1..], u)
  }

  /** All entries but the user's, in order. */
  function Without(ms: seq<Member>, u: string): (r: seq<Member>)
    ensures forall m :: m in r <==> m in ms && m.userId != u
    ensures |r| <= |ms|
  {
    if ms == [] then []
    else (if ms[0].userId == u then [] else [ms[0]]) + Without(ms[1..], u)
  }

  function WithRole(ms: seq<Member>, u: string, role: Role): (r: seq<Member>)
    ensures |r| == |ms|
    ensures forall i :: 0 <= i < |ms| ==> r[i] == if ms[i].userId == u then ms[i].(role := role) else ms[i]
  {
    seq(|ms|, i requires 0 <= i < |ms| => if ms[i].userId == u then ms[i].(role := role) else ms[i])
  }

  /** The first admin other than `u`. */
  function FirstAdmin(ms: seq<Member>, u: string): Option<Member> {
    if ms == [] then None
    else if ms[0].role.Admin? && ms[0].userId != u then Some(ms[0])
    else FirstAdmin(ms[1..], u)
  }

  /** The first member other than `u`. */
  function FirstOther(ms: seq<Member>, u: string): Option<Member> {
    if ms == [] then None
    else if ms[0].userId != u then Some(ms[0])
    else FirstOther(ms[1..], u)
  }

  function Heir(ms: seq<Member>, u: string): Option<Member> {
    if FirstAdmin(ms, u).Some? then FirstAdmin(ms, u) else FirstOther(ms, u)
  }

  /* The changes the operations are made of */

  /** Push a plain member and invalidate the cache. */
  function Push(w: World, id: string, u: string, how: How): World
    requires id in w.rooms
  {
    var room := w.rooms[id];
    w.(rooms := w.rooms[id := room.(members := room.members + [Member(u, Plain, w.now)])],
       cache := w.cache - {id},
       log := w.log + [Joined(id, u, how, w.now, room.isPrivate)])
  }

  /** Save a member list without `u`, invalidate the cache and drop the counter of `u`. */
  function Drop(w: World, id: string, u: string, members: seq<Member>): World
    requires id in w.rooms
  {
    w.(rooms := w.rooms[id := w.rooms[id].(members := members)],
       cache := w.cache - {id},
       unread := w.unread - {(u, id)},
       log := w.log + [Left(id, u)])
  }

  function KeysOf(ms: seq<Member>, id: string): set<(string, string)> {
    set m <- ms :: (m.userId, id)
  }

  /** Delete the room, its cache entry and its members' counters and receipts. */
  function Close(w: World, id: string): World
    requires id in w.rooms
  {
    var keys := KeysOf(w.rooms[id].members, id);
    w.(rooms := w.rooms - {id}, cache := w.cache - {id}, unread := w.unread - keys, receipts := w.receipts - keys,
       log := w.log + [Closed(id)])
  }

  function Founders(id: string, ms: seq<Member>, at: int, isPrivate: bool): seq<Event> {
    if ms == [] then []
    else Founders(id, ms[..|ms| - 1], at, isPrivate) + [Joined(id, ms[|ms| - 1].userId, Founder, at, isPrivate)]
  }

  function Found(w: World, id: string, room: Room): World {
    w.(rooms := w.rooms[id := room], log := w.log + Founders(id, room.members, w.now, room.isPrivate))
  }

  /** INCR the counter of every member of `ms`. */
  function Bumped(unread: map<(string, string), nat>, ms: seq<Member>, id: string): map<(string, string), nat> {
    if ms == [] then unread
    else
      var before, k := Bumped(unread, ms[..|ms| - 1], id), (ms[|ms| - 1].userId, id);
      before[k := (if k in before then before[k] else 0) + 1]
  }

  /* The operations, each with its gate */

  /** requireMember: private rooms are closed to non-members; a missing room passes. */
  predicate MemberGate(w: World, id: string, u: string) {
    id in w.rooms && w.rooms[id].isPrivate ==> IsMember(w.rooms[id].members, u)
  }

  /** requireRoomRole. */
  function RoleGate(w: World, id: string, u: string, minRole: Role): Option<Error> {
    if id !in w.rooms || Find(w.rooms[id].members, u).None? then Some(NotMember)
    else if Rank(Find(w.rooms[id].members, u).value.role) < Rank(minRole) then Some(InsufficientRole)
    else None
  }

  predicate NameInUse(w: World, name: string) {
    exists id <- w.rooms :: w.rooms[id].name == name
  }

  function Seen(w: World, id: string): Result<Reply, Error>
    requires id in w.rooms
  {
    Ok(View(ToRoomResponse(id, w.rooms[id])))
  }

  function CreateRoom(w: World, id: string, u: string, name: string, description: Option<string>, isPrivate: bool)
    : Outcome
  {
    if NameInUse(w, name) then (w, Err(NameTaken))
    else
      var w' := Found(w, id, Room(name, description, u, [Member(u, Owner, w.now)], isPrivate, Group, w.now));
      (w', Seen(w', id))
  }

  /** The insert of a direct-message room: no owner, two plain members. */
  function CreateDm(w: World, id: string, a: string, b: string, dmKey: string): Outcome {
    if NameInUse(w, dmKey) then (w, Err(NameTaken))
    else
      var ms := [Member(a, Plain, w.now), Member(b, Plain, w.now)];
      var w' := Found(w, id, Room(dmKey, None, a, ms, true, Dm, w.now));
      (w', Seen(w', id))
  }

  function GetRoomById(w: World, id: string): Outcome {
    if id in w.cache && Live(w.cache[id].expiresAt, w.now) then (w, Ok(View(w.cache[id].value)))
    else if id !in w.rooms then (w, Err(RoomNotFound))
    else
      var response := ToRoomResponse(id, w.rooms[id]);
      (w.(cache := w.cache[id := CacheEntry(response, w.now + ROOM_CACHE_MS)]), Ok(View(response)))
  }

  function JoinRoom(w: World, id: string, u: string): Outcome {
    if id !in w.rooms then (w, Err(RoomNotFound))
    else if w.rooms[id].isPrivate then (w, Err(NotMember))
    else if IsMember(w.rooms[id].members, u) then (w, Seen(w, id))
    else
      var w' := Push(w, id, u, Public);
      (w', Seen(w', id))
  }

  function LeaveRoom(w: World, id: string, u: string): Outcome {
    if id !in w.rooms then (w, Err(RoomNotFound))
    else
      var ms := w.rooms[id].members;
      var member, heir := Find(ms, u), Heir(ms, u);
      if member.None? then (w, Err(NotMember))
      else if member.value.role.Owner? && heir.None? then (Close(w, id), Ok(Done))
      else
        var ms' := if member.value.role.Owner? then WithRole(ms, heir.value.userId, Owner) else ms;
        var w' := Drop(w, id, u, Without(ms', u)).(receipts := w.receipts - {(u, id)});
        (w', Seen(w', id))
  }

  function CreateInvite(w: World, id: string, u: string, token: string): Outcome {
    if id in w.rooms && IsMember(w.rooms[id].members, u) then
      (w.(invites := w.invites[token := Invite(id, u, w.now + INVITE_MS)],
          log := w.log + [Invited(token, id, u, w.now)]), Ok(Token(token)))
    else (w, Err(NotMember))
  }

  /** The token is read and deleted in one command, whatever comes of it. */
  function JoinViaInvite(w: World, token: string, u: string): Outcome {
    if token == "" then (w, Err(MissingToken))
    else
      var w1 := w.(invites := w.invites - {token});
      if token !in w.invites || !Live(w.invites[token].expiresAt, w.now) then (w1, Err(InvalidToken))
      else
        var id := w.invites[token].roomId;
        if id !in w.rooms then (w1, Err(RoomNotFound))
        else if IsMember(w.rooms[id].members, u) then (w1, Seen(w1, id))
        else
          var w' := Push(w1, id, u, ByInvite(token));
          (w', Seen(w', id))
  }

  function KickMember(w: World, id: string, actor: string, target: string): Outcome {
    if id !in w.rooms then (w, Err(RoomNotFound))
    else
      var a, t := Find(w.rooms[id].members, actor), Find(w.rooms[id].members, target);
      if a.None? then (w, Err(NotMember))
      else if t.None? then (w, Err(TargetNotMember))
      else if t.value.role.Owner? then (w, Err(KickOwner))
      else if a.value.role.Admin? && Rank(t.value.role) >= Rank(Admin) then (w, Err(InsufficientRole))
      else
        var w' := Drop(w, id, target, Without(w.rooms[id].members, target));
        (w', Seen(w', id))
  }

  /** `newRole` is `Owner` for every string other than "admin" and "member". */
  function SetMemberRole(w: World, id: string, actor: string, target: string, newRole: Role): Outcome {
    if newRole.Owner? then (w, Err(InvalidRole))
    else if id !in w.rooms then (w, Err(RoomNotFound))
    else
      var a, t := Find(w.rooms[id].members, actor), Find(w.rooms[id].members, target);
      if a.None? then (w, Err(NotMember))
      else if t.None? then (w, Err(TargetNotMember))
      else if t.value.role.Owner? then (w, Err(ChangeOwnerRole))
      else if a.value.role.Admin? && newRole.Admin? then (w, Err(InsufficientRole))
      else
        var w' := w.(rooms := w.rooms[id := w.rooms[id].(members := WithRole(w.rooms[id].members, target, newRole))]);
        (w', Seen(w', id))
  }

  function DeleteRoom(w: World, id: string, u: string): Outcome {
    if id !in w.rooms then (w, Err(RoomNotFound))
    else
      var member := Find(w.rooms[id].members, u);
      if member.None? || !member.value.role.Owner? then (w, Err(InsufficientRole))
      else (Close(w, id), Ok(Done))
  }

  /** message:send once past the limiter: createMessage, then incrementUnread. */
  function Send(w: World, id: string, u: string): Outcome {
    if id !in w.rooms || !IsMember(w.rooms[id].members, u) then (w, Err(NotMember))
    else (w.(unread := Bumped(w.unread, Without(w.rooms[id].members, u), id), log := w.log + [Posted(id, u)]), Ok(Done))
  }

  /** The history route: the page itself is elsewhere; here its resetUnread and markRead, which a
      cursor that is not a date prevents. */
  function FetchHistory(w: World, id: string, u: string, cursorOk: bool): Outcome {
    if id !in w.rooms then (w, Err(RoomNotFound))
    else if !cursorOk then (w, Err(InvalidCursor))
    else (w.(unread := w.unread - {(u, id)}, receipts := w.receipts[(u, id) := w.now],
             log := w.log + [Fetched(id, u)]), Ok(Done))
  }

  datatype Op =
    | OpCreate(id: string, user: string, name: string, description: Option<string>, isPrivate: bool)
    | OpCreateDm(id: string, user: string, target: string, dmKey: string)
    | OpGet(id: string, user: string)
    | OpJoin(id: string, user: string)
    | OpLeave(id: string, user: string)
    | OpInvite(id: string, user: string, token: string)
    | OpJoinInvite(token: string, user: string)
    | OpKick(id: string, user: string, target: string)
    | OpSetRole(id: string, user: string, target: string, newRole: Role)
    | OpDelete(id: string, user: string)
    | OpSend(id: string, user: string)
    | OpFetch(id: string, user: string, cursorOk: bool)
    | OpTick(to: int)

  /** The routes that look at a room behind requireMember. */
  predicate Gated(op: Op) {
    op.OpGet? || op.OpJoin? || op.OpLeave? || op.OpInvite? || op.OpKick? || op.OpSetRole? || op.OpDelete? || op.OpFetch?
  }

  function RoleNeeded(op: Op): Option<Role> {
    if op.OpKick? || op.OpSetRole? then Some(Admin) else if op.OpDelete? then Some(Owner) else None
  }

  /** One request through its gates. */
  function Step(w: World, op: Op): Outcome {
    if Gated(op) && !MemberGate(w, op.id, op.user) then (w, Err(NotMember))
    else if RoleNeeded(op).Some? && RoleGate(w, op.id, op.user, RoleNeeded(op).value).Some? then
      (w, Err(RoleGate(w, op.id, op.user, RoleNeeded(op).value).value))
    else Perform(w, op)
  }

  function Perform(w: World, op: Op): Outcome {
    match op
    case OpCreate(id, u, name, description, isPrivate) => CreateRoom(w, id, u, name, description, isPrivate)
    case OpCreateDm(id, u, target, dmKey) => CreateDm(w, id, u, target, dmKey)
    case OpGet(id, _) => GetRoomById(w, id)
    case OpJoin(id, u) => JoinRoom(w, id, u)
    case OpLeave(id, u) => LeaveRoom(w, id, u)
    case OpInvite(id, u, token) => CreateInvite(w, id, u, token)
    case OpJoinInvite(token, u) => JoinViaInvite(w, token, u)
    case OpKick(id, u, target) => KickMember(w, id, u, target)
    case OpSetRole(id, u, target, newRole) => SetMemberRole(w, id, u, target, newRole)
    case OpDelete(id, u) => DeleteRoom(w, id, u)
    case OpSend(id, u) => Send(w, id, u)
    case OpFetch(id, u, cursorOk) => FetchHistory(w, id, u, cursorOk)
    case OpTick(to) => (w.(now := to), Ok(Done))
  }
}
