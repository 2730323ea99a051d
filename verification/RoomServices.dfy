/** The room, unread and read-receipt services as they run: store commands one after another on the
    Mongo and Redis state, each method proved against the operation it implements. */
module RoomServices {
  import opened Common
  import opened Rooms
  import RoomLaws

  class RoomService {
    var rooms: map<string, Room>
    var unread: map<(string, string), nat>
    var receipts: map<(string, string), int>
    var cache: map<string, CacheEntry>
    var invites: map<string, Invite>
    var now: int
    ghost var log: seq<Event>

    ghost function State(): World
      reads this
    {
      World(rooms, unread, receipts, cache, invites, now, log)
    }

    constructor ()
      ensures State() == RoomLaws.EMPTY
    {
      rooms, unread, receipts, cache, invites, now, log := map[], map[], map[], map[], map[], 0, [];
    }

    method CreateRoom(id: string, userId: string, name: string, description: Option<string>, isPrivate: bool)
      returns (r: Result<Reply, Error>)
      modifies this
      ensures (State(), r) == Rooms.CreateRoom(old(State()), id, userId, name, description, isPrivate)
    {
      if exists other <- rooms :: rooms[other].name == name {
        return Err(NameTaken);
      }
      var creator := Member(userId, Owner, now);
      var room := Room(name, description, userId, [creator], isPrivate, Group, now);
      rooms := rooms[id := room];
      log := log + Founders(id, [creator], now, isPrivate);
      r := Ok(View(ToRoomResponse(id, room)));
    }

    method GetRoomById(roomId: string) returns (r: Result<Reply, Error>)
      modifies this
      ensures (State(), r) == Rooms.GetRoomById(old(State()), roomId)
    {
      if roomId in cache && Live(cache[roomId].expiresAt, now) {
        return Ok(View(cache[roomId].value));
      }
      if roomId !in rooms {
        return Err(RoomNotFound);
      }
      var response := ToRoomResponse(roomId, rooms[roomId]);
      cache := cache[roomId := CacheEntry(response, now + ROOM_CACHE_MS)];
      r := Ok(View(response));
    }

    /** The guarded push; when it matches nothing, a second read tells why. */
    method JoinRoom(roomId: string, userId: string) returns (r: Result<Reply, Error>)
      modifies this
      ensures (State(), r) == Rooms.JoinRoom(old(State()), roomId, userId)
    {
      if roomId in rooms && !rooms[roomId].isPrivate && !IsMember(rooms[roomId].members, userId) {
        PushMember(roomId, userId, Public);
        return Ok(View(ToRoomResponse(roomId, rooms[roomId])));
      }
      if roomId !in rooms {
        return Err(RoomNotFound);
      }
      if rooms[roomId].isPrivate {
        return Err(NotMember);
      }
      r := Ok(View(ToRoomResponse(roomId, rooms[roomId])));
    }

    method PushMember(roomId: string, userId: string, ghost how: How)
      requires roomId in rooms
      modifies this
      ensures State() == Push(old(State()), roomId, userId, how)
    {
      var room := rooms[roomId];
      log := log + [Joined(roomId, userId, how, now, room.isPrivate)];
      rooms := rooms[roomId := room.(members := room.members + [Member(userId, Plain, now)])];
      cache := cache - {roomId};
    }

    /** Save the members left, drop the cache entry and the counter of the one who is gone. */
    method SaveWithout(roomId: string, userId: string, members: seq<Member>)
      requires roomId in rooms
      modifies this
      ensures State() == Drop(old(State()), roomId, userId, members)
    {
      rooms := rooms[roomId := rooms[roomId].(members := members)];
      cache := cache - {roomId};
      ClearUnread(userId, roomId);
      log := log + [Left(roomId, userId)];
    }

    method LeaveRoom(roomId: string, userId: string) returns (r: Result<Reply, Error>)
      modifies this
      ensures (State(), r) == Rooms.LeaveRoom(old(State()), roomId, userId)
    {
      if roomId !in rooms {
        return Err(RoomNotFound);
      }
      var room := rooms[roomId];
      var member := Find(room.members, userId);
      if member.None? {
        return Err(NotMember);
      }
      var members := room.members;
      if member.value.role.Owner? {
        var heir := Heir(room.members, userId);
        if heir.Some? {
          members := WithRole(members, heir.value.userId, Owner);
        } else {
          AloneInRoom(room.members, userId, roomId);
          rooms := rooms - {roomId};
          cache := cache - {roomId};
          ClearUnread(userId, roomId);
          ClearReceipt(userId, roomId);
          log := log + [Closed(roomId)];
          return Ok(Done);
        }
      }
      SaveWithout(roomId, userId, Without(members, userId));
      ClearReceipt(userId, roomId);
      r := Ok(View(ToRoomResponse(roomId, rooms[roomId])));
    }

    method CreateInvite(roomId: string, userId: string, token: string) returns (r: Result<Reply, Error>)
      modifies this
      ensures (State(), r) == Rooms.CreateInvite(old(State()), roomId, userId, token)
    {
      if !(roomId in rooms && IsMember(rooms[roomId].members, userId)) {
        return Err(NotMember);
      }
      invites := invites[token := Invite(roomId, userId, now + INVITE_MS)];
      log := log + [Invited(token, roomId, userId, now)];
      r := Ok(Token(token));
    }

    method JoinViaInvite(token: string, userId: string) returns (r: Result<Reply, Error>)
      modifies this
      ensures (State(), r) == Rooms.JoinViaInvite(old(State()), token, userId)
    {
      if token == "" {
        return Err(MissingToken);
      }
      var raw := if token in invites && Live(invites[token].expiresAt, now) then Some(invites[token]) else None;
      invites := invites - {token};
      if raw.None? {
        return Err(InvalidToken);
      }
      var roomId := raw.value.roomId;
      if roomId in rooms && !IsMember(rooms[roomId].members, userId) {
        PushMember(roomId, userId, ByInvite(token));
        return Ok(View(ToRoomResponse(roomId, rooms[roomId])));
      }
      if roomId !in rooms {
        return Err(RoomNotFound);
      }
      r := Ok(View(ToRoomResponse(roomId, rooms[roomId])));
    }

    method KickMember(roomId: string, actorId: string, targetId: string) returns (r: Result<Reply, Error>)
      modifies this
      ensures (State(), r) == Rooms.KickMember(old(State()), roomId, actorId, targetId)
    {
      if roomId !in rooms {
        return Err(RoomNotFound);
      }
      var room := rooms[roomId];
      var actor, target := Find(room.members, actorId), Find(room.members, targetId);
      if actor.None? {
        return Err(NotMember);
      }
      if target.None? {
        return Err(TargetNotMember);
      }
      if target.value.role.Owner? {
        return Err(KickOwner);
      }
      if actor.value.role.Admin? && Rank(target.value.role) >= Rank(Admin) {
        return Err(InsufficientRole);
      }
      SaveWithout(roomId, targetId, Without(room.members, targetId));
      r := Ok(View(ToRoomResponse(roomId, rooms[roomId])));
    }

    /** Saves the new role and leaves the cache alone: no cached field depends on roles. */
    method SetMemberRole(roomId: string, actorId: string, targetId: string, newRole: Role)
      returns (r: Result<Reply, Error>)
      modifies this
      ensures (State(), r) == Rooms.SetMemberRole(old(State()), roomId, actorId, targetId, newRole)
    {
      if newRole.Owner? {
        return Err(InvalidRole);
      }
      if roomId !in rooms {
        return Err(RoomNotFound);
      }
      var room := rooms[roomId];
      var actor, target := Find(room.members, actorId), Find(room.members, targetId);
      if actor.None? {
        return Err(NotMember);
      }
      if target.None? {
        return Err(TargetNotMember);
      }
      if target.value.role.Owner? {
        return Err(ChangeOwnerRole);
      }
      if actor.value.role.Admin? && newRole.Admin? {
        return Err(InsufficientRole);
      }
      rooms := rooms[roomId := room.(members := WithRole(room.members, targetId, newRole))];
      r := Ok(View(ToRoomResponse(roomId, rooms[roomId])));
    }

    method DeleteRoom(roomId: string, userId: string) returns (r: Result<Reply, Error>)
      modifies this
      ensures (State(), r) == Rooms.DeleteRoom(old(State()), roomId, userId)
    {
      if roomId !in rooms {
        return Err(RoomNotFound);
      }
      var room := rooms[roomId];
      var member := Find(room.members, userId);
      if member.None? || !member.value.role.Owner? {
        return Err(InsufficientRole);
      }
      rooms := rooms - {roomId};
      cache := cache - {roomId};
      ClearAllUnread(roomId, room.members);
      ClearAllReceipts(roomId, room.members);
      log := log + [Closed(roomId)];
      r := Ok(Done);
    }

    method ClearUnread(userId: string, roomId: string)
      modifies this`unread
      ensures unread == old(unread) - {(userId, roomId)}
    {
      unread := unread - {(userId, roomId)};
    }

    /** The loop over the members at the end of a room's deletion. */
    method ClearAllUnread(roomId: string, members: seq<Member>)
      modifies this`unread
      ensures unread == old(unread) - KeysOf(members, roomId)
    {
      var i := 0;
      while i < |members|
        invariant 0 <= i <= |members|
        invariant unread == old(unread) - KeysOf(members[..i], roomId)
      {
        assert members[..i + 1] == members[..i] + [members[i]];
        ClearUnread(members[i].userId, roomId);
        i := i + 1;
      }
      assert members[..i] == members;
    }

    method ClearReceipt(userId: string, roomId: string)
      modifies this`receipts
      ensures receipts == old(receipts) - {(userId, roomId)}
    {
      receipts := receipts - {(userId, roomId)};
    }

    method ClearAllReceipts(roomId: string, members: seq<Member>)
      modifies this`receipts
      ensures receipts == old(receipts) - KeysOf(members, roomId)
    {
      var i := 0;
      while i < |members|
        invariant 0 <= i <= |members|
        invariant receipts == old(receipts) - KeysOf(members[..i], roomId)
      {
        assert members[..i + 1] == members[..i] + [members[i]];
        receipts := receipts - {(members[i].userId, roomId)};
        i := i + 1;
      }
      assert members[..i] == members;
    }

    /** What message:send does once the limiter lets it through. */
    method SendMessage(roomId: string, senderId: string) returns (r: Result<Reply, Error>)
      modifies this
      ensures (State(), r) == Rooms.Send(old(State()), roomId, senderId)
    {
      if !(roomId in rooms && IsMember(rooms[roomId].members, senderId)) {
        return Err(NotMember);
      }
      IncrementUnread(roomId, senderId);
      log := log + [Posted(roomId, senderId)];
      r := Ok(Done);
    }

    method IncrementUnread(roomId: string, senderId: string)
      modifies this`unread
      ensures unread == if roomId in rooms then Bumped(old(unread), Without(rooms[roomId].members, senderId), roomId)
                        else old(unread)
    {
      if roomId !in rooms {
        return;
      }
      var others := Without(rooms[roomId].members, senderId);
      var i := 0;
      while i < |others|
        invariant 0 <= i <= |others|
        invariant unread == Bumped(old(unread), others[..i], roomId)
      {
        var k := (others[i].userId, roomId);
        BumpOne(old(unread), others, i, roomId);
        unread := unread[k := (if k in unread then unread[k] else 0) + 1];
        i := i + 1;
      }
      assert others[..i] == others;
    }

    /** The history route, apart from the page it returns. */
    method FetchHistory(roomId: string, userId: string, cursorOk: bool) returns (r: Result<Reply, Error>)
      modifies this
      ensures (State(), r) == Rooms.FetchHistory(old(State()), roomId, userId, cursorOk)
    {
      if roomId !in rooms {
        return Err(RoomNotFound);
      }
      if !cursorOk {
        return Err(InvalidCursor);
      }
      ClearUnread(userId, roomId);
      receipts := receipts[(userId, roomId) := now];
      log := log + [Fetched(roomId, userId)];
      r := Ok(Done);
    }

    /** The insert of findOrCreateDm. */
    method CreateDm(id: string, requesterId: string, targetId: string, dmKey: string) returns (r: Result<Reply, Error>)
      modifies this
      ensures (State(), r) == Rooms.CreateDm(old(State()), id, requesterId, targetId, dmKey)
    {
      if exists other <- rooms :: rooms[other].name == dmKey {
        return Err(NameTaken);
      }
      var members := [Member(requesterId, Plain, now), Member(targetId, Plain, now)];
      var room := Room(dmKey, None, requesterId, members, true, Dm, now);
      rooms := rooms[id := room];
      log := log + Founders(id, members, now, true);
      r := Ok(View(ToRoomResponse(id, room)));
    }

    /* Requests through their gates */

    /** The query for a private room that the user is not in. */
    method RequireMember(roomId: string, userId: string) returns (passes: bool)
      ensures passes <==> MemberGate(State(), roomId, userId)
    {
      var privateNonMember := roomId in rooms && rooms[roomId].isPrivate && !IsMember(rooms[roomId].members, userId);
      passes := !privateNonMember;
    }

    method RequireRoomRole(roomId: string, userId: string, minRole: Role) returns (refusal: Option<Error>)
      ensures refusal == RoleGate(State(), roomId, userId, minRole)
    {
      if roomId !in rooms || Find(rooms[roomId].members, userId).None? {
        return Some(NotMember);
      }
      var userRole := Find(rooms[roomId].members, userId).value.role;
      refusal := if Rank(userRole) < Rank(minRole) then Some(InsufficientRole) else None;
    }

    /** One request: its gates, then the service. */
    method Handle(op: Op) returns (r: Result<Reply, Error>)
      modifies this
      ensures (State(), r) == Rooms.Step(old(State()), op)
      ensures RoomLaws.Inv(old(State())) && RoomLaws.OpOk(old(State()), op) ==> RoomLaws.Inv(State())
    {
      if RoomLaws.Inv(State()) && RoomLaws.OpOk(State(), op) {
        RoomLaws.StepKeepsInv(State(), op);
      }
      if Gated(op) {
        var passes := RequireMember(op.id, op.user);
        if !passes {
          return Err(NotMember);
        }
      }
      if RoleNeeded(op).Some? {
        var refusal := RequireRoomRole(op.id, op.user, RoleNeeded(op).value);
        if refusal.Some? {
          return Err(refusal.value);
        }
      }
      r := Dispatch(op);
    }

    method Dispatch(op: Op) returns (r: Result<Reply, Error>)
      modifies this
      ensures (State(), r) == Perform(old(State()), op)
    {
      match op
      case OpCreate(id, u, name, description, isPrivate) => r := CreateRoom(id, u, name, description, isPrivate);
      case OpCreateDm(id, u, target, dmKey) => r := CreateDm(id, u, target, dmKey);
      case OpGet(id, _) => r := GetRoomById(id);
      case OpJoin(id, u) => r := JoinRoom(id, u);
      case OpLeave(id, u) => r := LeaveRoom(id, u);
      case OpInvite(id, u, token) => r := CreateInvite(id, u, token);
      case OpJoinInvite(token, u) => r := JoinViaInvite(token, u);
      case OpKick(id, u, target) => r := KickMember(id, u, target);
      case OpSetRole(id, u, target, newRole) => r := SetMemberRole(id, u, target, newRole);
      case OpDelete(id, u) => r := DeleteRoom(id, u);
      case OpSend(id, u) => r := SendMessage(id, u);
      case OpFetch(id, u, cursorOk) => r := FetchHistory(id, u, cursorOk);
      case OpTick(to) =>
        now := to;
        r := Ok(Done);
    }

    /** Requests one after another: the run the laws are about, with its replies, so what holds of
        every run holds of every use of the service. */
    method Serve(ops: seq<Op>) returns (replies: seq<Result<Reply, Error>>)
      modifies this
      ensures State() == RoomLaws.Run(old(State()), ops)
      ensures |replies| == |ops|
      ensures forall i | 0 <= i < |ops| :: ReplyAt(old(State()), ops, i, replies[i])
      ensures old(State()) == RoomLaws.EMPTY && RoomLaws.Possible(old(State()), ops) ==> RoomLaws.Inv(State())
    {
      replies := [];
      var i := 0;
      while i < |ops|
        invariant 0 <= i <= |ops| && |replies| == i
        invariant State() == RoomLaws.Run(old(State()), ops[..i])
        invariant forall j | 0 <= j < i :: ReplyAt(old(State()), ops, j, replies[j])
      {
        RoomLaws.RunPush(old(State()), ops[..i], ops[i]);
        assert ops[..i + 1] == ops[..i] + [ops[i]];
        var r := Handle(ops[i]);
        replies := replies + [r];
        i := i + 1;
      }
      assert ops[..i] == ops;
      if old(State()) == RoomLaws.EMPTY && RoomLaws.Possible(old(State()), ops) {
        RoomLaws.ReachableIsOk(ops);
      }
    }

    /** The nonzero counters of the user's rooms. */
    method GetUnreadCounts(userId: string) returns (counts: map<string, nat>)
      ensures forall id :: id in counts <==> RoomLaws.MemberOf(State(), id, userId) && RoomLaws.Unread(State(), id, userId) > 0
      ensures forall id <- counts :: counts[id] == RoomLaws.Unread(State(), id, userId)
    {
      var found := set id <- rooms | IsMember(rooms[id].members, userId);
      counts := map[];
      var todo := found;
      while todo != {}
        invariant todo <= found
        invariant forall id :: id in counts <==> id in found - todo && RoomLaws.Unread(State(), id, userId) > 0
        invariant forall id <- counts :: counts[id] == RoomLaws.Unread(State(), id, userId)
      {
        var id :| id in todo;
        var count := if (userId, id) in unread then unread[(userId, id)] else 0;
        if count > 0 {
          counts := counts[id := count];
        }
        todo := todo - {id};
      }
    }

    /** The receipts of the current members, and nothing else of what is stored. */
    method GetRoomReceipts(roomId: string) returns (found: map<string, int>)
      ensures forall u :: u in found <==> RoomLaws.MemberOf(State(), roomId, u) && (u, roomId) in receipts
      ensures forall u <- found :: found[u] == receipts[(u, roomId)]
    {
      found := map[];
      if roomId !in rooms {
        return;
      }
      var members := rooms[roomId].members;
      var i := 0;
      while i < |members|
        invariant 0 <= i <= |members|
        invariant forall u :: u in found <==> IsMember(members[..i], u) && (u, roomId) in receipts
        invariant forall u <- found :: found[u] == receipts[(u, roomId)]
      {
        var k := (members[i].userId, roomId);
        assert members[..i + 1] == members[..i] + [members[i]];
        forall u
          ensures IsMember(members[..i + 1], u) <==> IsMember(members[..i], u) || u == members[i].userId
        {
          RoomLaws.IsMemberAfterPush(members[..i], members[i], u);
        }
        if k in receipts {
          found := found[members[i].userId := receipts[k]];
        }
        i := i + 1;
      }
      assert members[..i] == members;
    }
  }

  /** The i-th reply is the one the i-th request gets after those before it. */
  ghost predicate ReplyAt(w: World, ops: seq<Op>, i: nat, r: Result<Reply, Error>)
    requires i < |ops|
  {
    r == Rooms.Step(RoomLaws.Run(w, ops[..i]), ops[i]).1
  }

  lemma BumpOne(unread: map<(string, string), nat>, ms: seq<Member>, i: nat, id: string)
    requires i < |ms|
    ensures var before, k := Bumped(unread, ms[..i], id), (ms[i].userId, id);
            Bumped(unread, ms[..i + 1], id) == before[k := (if k in before then before[k] else 0) + 1]
  {
    assert ms[..i + 1][..i] == ms[..i];
  }

  /** An owner with no heir is the only user in the room. */
  lemma {:induction false} NobodyElse(ms: seq<Member>, u: string)
    requires Heir(ms, u).None?
    ensures forall m <- ms :: m.userId == u
  {
    if ms != [] {
      NobodyElse(ms[1..], u);
      assert ms == [ms[0]] + ms[1..];
    }
  }

  lemma AloneInRoom(ms: seq<Member>, u: string, id: string)
    requires Heir(ms, u).None? && IsMember(ms, u)
    ensures KeysOf(ms, id) == {(u, id)}
  {
    NobodyElse(ms, u);
  }
}
