/** What each room request does, field by field: when it is granted, what it changes and what it leaves
    alone.  A request is taken through its gates; `log` is the history variable throughout. */
module RoomEffects {
  import opened Common
  import opened Rooms
  import opened RoomLaws

  /** The response shows the room as stored. */
  predicate Describes(r: Result<Reply, Error>, id: string, room: Room) {
    && r.Ok? && r.value.View?
    && var v := r.value.room;
       && v.id == id && v.name == room.name && v.description == room.description && v.createdBy == room.createdBy
       && v.memberCount == |room.members| && v.isPrivate == room.isPrivate && v.kind == room.kind
       && v.createdAt == room.createdAt
  }

  /** Only the room's member list differs. */
  ghost predicate OnlyMembers(w: World, w': World, id: string, ms: seq<Member>)
    requires id in w.rooms
  {
    w'.rooms == w.rooms[id := w.rooms[id].(members := ms)]
  }

  /** Private rooms turn non-members away, whether or not they exist being left open. */
  predicate TurnedAway(w: World, id: string, u: string) {
    id in w.rooms && w.rooms[id].isPrivate && !MemberOf(w, id, u)
  }

  /** `ms` without its one entry of `u`. */
  ghost predicate Cut(ms: seq<Member>, u: string, ms': seq<Member>) {
    exists i :: 0 <= i < |ms| && ms[i].userId == u && ms' == ms[..i] + ms[i + 1..]
  }

  lemma {:induction false} WithoutNobody(ms: seq<Member>, u: string)
    requires !IsMember(ms, u)
    ensures Without(ms, u) == ms
  {
    if ms != [] {
      assert ms[0] in ms;
      forall m <- ms[1..]
        ensures m.userId != u
      {
        assert m in ms;
      }
      WithoutNobody(ms[1..], u);
    }
  }

  lemma CutCons(m: Member, ms: seq<Member>, u: string, ms': seq<Member>)
    requires Cut(ms, u, ms')
    ensures Cut([m] + ms, u, [m] + ms')
  {
    var i :| 0 <= i < |ms| && ms[i].userId == u && ms' == ms[..i] + ms[i + 1..];
    var all := [m] + ms;
    assert all[i + 1] == ms[i] && all[..i + 1] == [m] + ms[..i] && all[i + 2..] == ms[i + 1..];
    assert [m] + ms' == all[..i + 1] + all[i + 1 + 1..];
  }

  lemma {:induction false} WithoutCuts(ms: seq<Member>, u: string)
    requires Distinct(ms) && IsMember(ms, u)
    ensures Cut(ms, u, Without(ms, u))
  {
    var head, tail := ms[0], ms[1..];
    assert ms == [head] + tail;
    if head.userId == u {
      WithoutNobody(tail, u);
      assert Without(ms, u) == ms[..0] + ms[0 + 1..];
    } else {
      WithoutCuts(tail, u);
      CutCons(head, tail, u, Without(tail, u));
    }
  }

  /** An invite: consumed whatever comes of it; granted exactly when it is on offer, live, and its room
      exists; and then the user is in the room, at the end of the list as a plain member if new. */
  lemma JoinInviteEffect(w: World, token: string, u: string)
    ensures var (w', r) := Step(w, OpJoinInvite(token, u));
            var offered := token != "" && token in w.invites && w.now < w.invites[token].expiresAt;
            && (r == Err(MissingToken) <==> token == "")
            && (r == Err(InvalidToken) <==> token != "" && !offered)
            && (r == Err(RoomNotFound) <==> offered && w.invites[token].roomId !in w.rooms)
            && (r.Ok? <==> offered && w.invites[token].roomId in w.rooms)
            && w'.invites == (if token == "" then w.invites else w.invites - {token})
            && (r.Err? ==> w' == w.(invites := w'.invites))
    ensures var (w', r) := Step(w, OpJoinInvite(token, u));
            r.Ok? ==>
              var id := w.invites[token].roomId;
              var ms := w.rooms[id].members;
              && MemberOf(w', id, u)
              && OnlyMembers(w, w', id, if IsMember(ms, u) then ms else ms + [Member(u, Plain, w.now)])
              && Describes(r, id, w'.rooms[id])
              && w'.cache == (if IsMember(ms, u) then w.cache else w.cache - {id})
              && w' == w.(rooms := w'.rooms, invites := w'.invites, cache := w'.cache, log := w'.log)
  {
    var (w', r) := Step(w, OpJoinInvite(token, u));
    if r.Ok? {
      var id := w.invites[token].roomId;
      PushedIsMember(w.rooms[id].members, Member(u, Plain, w.now));
    }
  }

  lemma PushedIsMember(ms: seq<Member>, m: Member)
    ensures IsMember(ms + [m], m.userId)
  {
    assert m in ms + [m];
  }

  /** Joining: granted exactly for rooms that exist and are public; a private one refuses everybody. */
  lemma JoinEffect(w: World, id: string, u: string)
    ensures var (w', r) := Step(w, OpJoin(id, u));
            && (r == Err(RoomNotFound) <==> id !in w.rooms)
            && (r == Err(NotMember) <==> id in w.rooms && w.rooms[id].isPrivate)
            && (r.Ok? <==> id in w.rooms && !w.rooms[id].isPrivate)
            && (r.Err? ==> w' == w)
            && (r.Ok? ==>
                  var ms := w.rooms[id].members;
                  && MemberOf(w', id, u)
                  && OnlyMembers(w, w', id, if IsMember(ms, u) then ms else ms + [Member(u, Plain, w.now)])
                  && Describes(r, id, w'.rooms[id])
                  && w'.cache == (if IsMember(ms, u) then w.cache else w.cache - {id})
                  && w' == w.(rooms := w'.rooms, cache := w'.cache, log := w'.log))
  {
    if id in w.rooms {
      PushedIsMember(w.rooms[id].members, Member(u, Plain, w.now));
    }
  }

  /** `ms` with `h` as owner. */
  ghost predicate Crowned(ms: seq<Member>, h: string, ms': seq<Member>) {
    && |ms'| == |ms|
    && forall i | 0 <= i < |ms| ::
         && ms'[i].userId == ms[i].userId && ms'[i].joinedAt == ms[i].joinedAt
         && ms'[i].role == if ms[i].userId == h then Owner else ms[i].role
  }

  predicate Owns(w: World, id: string, u: string) {
    id in w.rooms && Find(w.rooms[id].members, u).Some? && Find(w.rooms[id].members, u).value.role.Owner?
  }

  /** The gate in front of leaving changes no answer. */
  lemma StepIsLeave(w: World, id: string, u: string)
    ensures Step(w, OpLeave(id, u)) == LeaveRoom(w, id, u)
  {
  }

  /** What leaving does outside the member list. */
  ghost predicate LeaveDone(w: World, id: string, u: string, w': World, r: Result<Reply, Error>) {
    && (r == Err(RoomNotFound) <==> id !in w.rooms)
    && (r.Ok? <==> MemberOf(w, id, u))
    && (r.Err? ==> w' == w)
    && (r.Ok? ==>
          && w'.rooms - {id} == w.rooms - {id}
          && w'.cache == w.cache - {id}
          && w'.unread == w.unread - {(u, id)} && w'.receipts == w.receipts - {(u, id)}
          && w' == w.(rooms := w'.rooms, cache := w'.cache, unread := w'.unread, receipts := w'.receipts, log := w'.log))
  }

  /** Leaving is granted exactly to members; the leaver's counter and receipt go with the cache entry. */
  lemma LeaveEffect(w: World, id: string, u: string)
    ensures var (w', r) := Step(w, OpLeave(id, u)); LeaveDone(w, id, u, w', r)
  {
    StepIsLeave(w, id, u);
    LeaveRoomDone(w, id, u);
  }

  lemma LeaveRoomDone(w: World, id: string, u: string)
    ensures var (w', r) := LeaveRoom(w, id, u); LeaveDone(w, id, u, w', r)
  {
    if MemberOf(w, id, u) && Owns(w, id, u) && Heir(w.rooms[id].members, u).None? {
      LastOwnerCloses(w, id, u);
    }
  }

  lemma LastOwnerCloses(w: World, id: string, u: string)
    requires MemberOf(w, id, u) && Heir(w.rooms[id].members, u).None?
    ensures var w' := Close(w, id);
            && w'.rooms == w.rooms - {id} && w'.cache == w.cache - {id}
            && w'.unread == w.unread - {(u, id)} && w'.receipts == w.receipts - {(u, id)}
  {
    NoHeirIsAlone(w.rooms[id].members, u);
    assert KeysOf(w.rooms[id].members, id) == {(u, id)};
  }

  lemma {:induction false} NoHeirIsAlone(ms: seq<Member>, u: string)
    requires Heir(ms, u).None?
    ensures forall m <- ms :: m.userId == u
  {
    if ms != [] {
      NoHeirIsAlone(ms[1..], u);
      assert ms == [ms[0]] + ms[1..];
    }
  }

  /** The member list is now `ms'`, and the answer shows it. */
  ghost predicate Saved(w: World, id: string, w': World, r: Result<Reply, Error>)
    requires id in w.rooms
  {
    id in w'.rooms && OnlyMembers(w, w', id, w'.rooms[id].members) && Describes(r, id, w'.rooms[id])
  }

  lemma LeaveSaves(w: World, id: string, u: string)
    requires MemberOf(w, id, u) && (Owns(w, id, u) ==> Heir(w.rooms[id].members, u).Some?)
    ensures var (w', r), ms := LeaveRoom(w, id, u), w.rooms[id].members;
            && Saved(w, id, w', r)
            && w'.rooms[id].members ==
                 Without(if Owns(w, id, u) then WithRole(ms, Heir(ms, u).value.userId, Owner) else ms, u)
  {
  }

  /** A member who does not own the room just drops out of the list. */
  lemma MemberLeaveEffect(w: World, id: string, u: string)
    requires RoomsOk(w) && MemberOf(w, id, u) && !Owns(w, id, u)
    ensures var (w', r) := Step(w, OpLeave(id, u));
            Saved(w, id, w', r) && Cut(w.rooms[id].members, u, w'.rooms[id].members)
  {
    assert RoomOk(w.rooms[id], w.now);
    StepIsLeave(w, id, u);
    LeaveSaves(w, id, u);
    WithoutCuts(w.rooms[id].members, u);
  }

  /** The list without `u` after `h` has been made its owner. */
  ghost predicate Inherits(ms: seq<Member>, u: string, h: Member, ms': seq<Member>) {
    exists crowned :: Crowned(ms, h.userId, crowned) && Cut(crowned, u, ms')
  }

  lemma WithoutInherits(ms: seq<Member>, u: string, h: Member)
    requires Distinct(ms) && IsMember(ms, u)
    ensures Inherits(ms, u, h, Without(WithRole(ms, h.userId, Owner), u))
  {
    var crowned := WithRole(ms, h.userId, Owner);
    WithRoleMembers(ms, h.userId, Owner, u);
    WithoutCuts(crowned, u);
    assert Crowned(ms, h.userId, crowned);
  }

  /** An owner who leaves alone takes the room along; otherwise the longest-tenured admin, or member
      when there is no other admin, owns it, and everyone else keeps role and place. */
  lemma OwnerLeaveEffect(w: World, id: string, u: string)
    requires RoomsOk(w) && Owns(w, id, u)
    ensures var (w', r), ms := Step(w, OpLeave(id, u)), w.rooms[id].members;
            if forall m <- ms :: m.userId == u then id !in w'.rooms && r == Ok(Done)
            else Saved(w, id, w', r) && exists h :: IsHeir(ms, u, h) && Inherits(ms, u, h, w'.rooms[id].members)
  {
    var ms := w.rooms[id].members;
    assert RoomOk(w.rooms[id], w.now);
    StepIsLeave(w, id, u);
    HeirIsLongestTenured(ms, u);
    if Heir(ms, u).Some? {
      LeaveSaves(w, id, u);
      WithoutInherits(ms, u, Heir(ms, u).value);
    }
  }

  /** The gates refuse or let the service decide. */
  lemma StepIsKick(w: World, id: string, actor: string, target: string)
    ensures var step := Step(w, OpKick(id, actor, target));
            step == KickMember(w, id, actor, target) || (step.0 == w && step.1.Err?)
  {
    if MemberGate(w, id, actor) && RoleGate(w, id, actor, Admin).None? {
      assert Step(w, OpKick(id, actor, target)) == Perform(w, OpKick(id, actor, target));
    }
  }

  lemma KickSaves(w: World, id: string, actor: string, target: string)
    ensures var (w', r) := KickMember(w, id, actor, target);
            && (r.Err? ==> w' == w)
            && (r.Ok? ==>
                  && id in w.rooms && IsMember(w.rooms[id].members, target) && Saved(w, id, w', r)
                  && w'.rooms[id].members == Without(w.rooms[id].members, target)
                  && w'.cache == w.cache - {id} && w'.unread == w.unread - {(target, id)}
                  && w' == w.(rooms := w'.rooms, cache := w'.cache, unread := w'.unread, log := w'.log))
  {
  }

  /** A kick that is granted cuts the target out of the list, with counter and cache entry. */
  lemma KickEffect(w: World, id: string, actor: string, target: string)
    requires RoomsOk(w)
    ensures var (w', r) := Step(w, OpKick(id, actor, target));
            && (r.Err? ==> w' == w)
            && (r.Ok? ==>
                  && id in w.rooms && Saved(w, id, w', r)
                  && Cut(w.rooms[id].members, target, w'.rooms[id].members)
                  && w'.cache == w.cache - {id} && w'.unread == w.unread - {(target, id)}
                  && w' == w.(rooms := w'.rooms, cache := w'.cache, unread := w'.unread, log := w'.log))
  {
    StepIsKick(w, id, actor, target);
    KickSaves(w, id, actor, target);
    if Step(w, OpKick(id, actor, target)).1.Ok? {
      assert RoomOk(w.rooms[id], w.now);
      WithoutCuts(w.rooms[id].members, target);
    }
  }

  /** A role change that is granted gives the target the role and changes nothing else at all. */
  lemma SetRoleEffect(w: World, id: string, actor: string, target: string, newRole: Role)
    ensures var (w', r) := Step(w, OpSetRole(id, actor, target, newRole));
            && (r.Err? ==> w' == w)
            && (r.Ok? ==>
                  && id in w.rooms && Saved(w, id, w', r) && w' == w.(rooms := w'.rooms)
                  && var ms, ms' := w.rooms[id].members, w'.rooms[id].members;
                     && |ms'| == |ms|
                     && forall i | 0 <= i < |ms| ::
                          && ms'[i].userId == ms[i].userId && ms'[i].joinedAt == ms[i].joinedAt
                          && ms'[i].role == if ms[i].userId == target then newRole else ms[i].role)
  {
  }

  /** A deletion that is granted leaves no room, cache entry, counter or member's receipt, and every
      other one. */
  lemma DeleteEffect(w: World, id: string, u: string)
    requires TalliesOk(w)
    ensures var (w', r) := Step(w, OpDelete(id, u));
            && (r.Err? ==> w' == w)
            && (r.Ok? ==>
                  && id in w.rooms && w'.rooms == w.rooms - {id} && w'.cache == w.cache - {id} && r == Ok(Done)
                  && (forall v, i :: (v, i) in w'.unread <==> (v, i) in w.unread && i != id)
                  && (forall k <- w'.unread :: w'.unread[k] == w.unread[k])
                  && (forall v, i :: (v, i) in w'.receipts <==> (v, i) in w.receipts && !(i == id && MemberOf(w, id, v)))
                  && (forall k <- w'.receipts :: w'.receipts[k] == w.receipts[k])
                  && w' == w.(rooms := w'.rooms, cache := w'.cache, unread := w'.unread, receipts := w'.receipts,
                              log := w'.log))
  {
    var (w', r) := Step(w, OpDelete(id, u));
    if r.Ok? {
      forall v, i
        ensures (v, i) in KeysOf(w.rooms[id].members, id) <==> i == id && MemberOf(w, id, v)
      {
      }
      forall v, i
        ensures (v, i) in w'.unread <==> (v, i) in w.unread && i != id
      {
        assert TallyOk(w, id, v);
      }
    }
  }

  /** Creating is granted exactly when no room has the name; the creator is the one member and owner. */
  lemma CreateEffect(w: World, id: string, u: string, name: string, description: Option<string>, isPrivate: bool)
    ensures var (w', r) := Step(w, OpCreate(id, u, name, description, isPrivate));
            && (r == Err(NameTaken) <==> exists i <- w.rooms :: w.rooms[i].name == name)
            && (r.Err? ==> w' == w)
            && (r.Ok? ==>
                  && id in w'.rooms && Describes(r, id, w'.rooms[id])
                  && w'.rooms[id].name == name && w'.rooms[id].description == description
                  && w'.rooms[id].isPrivate == isPrivate && w'.rooms[id].kind.Group?
                  && w'.rooms[id].createdBy == u && w'.rooms[id].createdAt == w.now
                  && w'.rooms[id].members == [Member(u, Owner, w.now)]
                  && w'.rooms - {id} == w.rooms - {id} && w' == w.(rooms := w'.rooms, log := w'.log))
  {
  }

  /** So is a direct message; its two users are its members, both plain. */
  lemma CreateDmEffect(w: World, id: string, a: string, b: string, key: string)
    ensures var (w', r) := Step(w, OpCreateDm(id, a, b, key));
            && (r == Err(NameTaken) <==> exists i <- w.rooms :: w.rooms[i].name == key)
            && (r.Err? ==> w' == w)
            && (r.Ok? ==> DmOpened(w, w', id, a, b, key) && Describes(r, id, w'.rooms[id]))
  {
  }

  /** There is a new room at `id`, the direct message of `a` and `b`, and all else is as it was. */
  predicate DmOpened(w: World, w': World, id: string, a: string, b: string, key: string) {
    && id in w'.rooms
    && w'.rooms[id].name == key && w'.rooms[id].kind.Dm? && w'.rooms[id].isPrivate
    && w'.rooms[id].createdBy == a && w'.rooms[id].createdAt == w.now && w'.rooms[id].description.None?
    && w'.rooms[id].members == [Member(a, Plain, w.now), Member(b, Plain, w.now)]
    && w'.rooms - {id} == w.rooms - {id} && w' == w.(rooms := w'.rooms, log := w'.log)
  }

  lemma DmMembers(w: World, w': World, id: string, a: string, b: string, key: string, u: string)
    requires DmOpened(w, w', id, a, b, key)
    ensures MemberOf(w', id, u) <==> u == a || u == b
  {
    var ms := w'.rooms[id].members;
    assert ms[0] in ms && ms[1] in ms;
  }

  /** Members of a private room, and nobody else, may send to it and read it. */
  lemma PrivateIsForMembers(w: World, id: string, u: string)
    requires id in w.rooms && w.rooms[id].isPrivate
    ensures MemberOf(w, id, u) <==> Step(w, OpSend(id, u)).1.Ok?
    ensures MemberOf(w, id, u) <==> Step(w, OpFetch(id, u, true)).1.Ok?
  {
    StepIsSend(w, id, u);
    FetchEffect(w, id, u, true);
  }

  /** So exactly the two users of a direct message just opened are in it, and may send and read. */
  lemma DmIsForBoth(w: World, w': World, id: string, a: string, b: string, key: string, u: string)
    requires DmOpened(w, w', id, a, b, key)
    ensures MemberOf(w', id, u) <==> u == a || u == b
    ensures MemberOf(w', id, u) <==> Step(w', OpSend(id, u)).1.Ok?
    ensures MemberOf(w', id, u) <==> Step(w', OpFetch(id, u, true)).1.Ok?
  {
    DmMembers(w, w', id, a, b, key, u);
    PrivateIsForMembers(w', id, u);
  }

  /** Inviting is granted exactly to members, for 48 hours. */
  lemma InviteEffect(w: World, id: string, u: string, token: string)
    ensures var (w', r) := Step(w, OpInvite(id, u, token));
            && (r == Ok(Token(token)) <==> MemberOf(w, id, u)) && (r == Err(NotMember) <==> !MemberOf(w, id, u))
            && (r.Err? ==> w' == w)
            && (r.Ok? ==> w' == w.(invites := w.invites[token := Invite(id, u, w.now + 48 * 3600 * 1000)], log := w'.log))
  {
  }

  predicate Hears(w: World, id: string, u: string, v: string, i: string) {
    i == id && v != u && MemberOf(w, id, v)
  }

  predicate Counted(w: World, w': World, id: string, u: string, v: string, i: string) {
    && Unread(w', i, v) == Unread(w, i, v) + (if Hears(w, id, u, v, i) then 1 else 0)
    && ((v, i) in w'.unread <==> (v, i) in w.unread || Hears(w, id, u, v, i))
  }

  /** Sending is granted exactly to members; every other member gains one unread message, and no other
      counter changes. */
  lemma SendEffect(w: World, id: string, u: string)
    requires RoomsOk(w)
    ensures var (w', r) := Step(w, OpSend(id, u));
            && (r.Ok? <==> MemberOf(w, id, u)) && (r.Err? ==> w' == w && r == Err(NotMember))
            && (r.Ok? ==> (forall v, i :: Counted(w, w', id, u, v, i)) && w' == w.(unread := w'.unread, log := w'.log))
  {
    StepIsSend(w, id, u);
    if MemberOf(w, id, u) {
      assert RoomOk(w.rooms[id], w.now);
      forall v, i
        ensures Counted(w, Send(w, id, u).0, id, u, v, i)
      {
        SendCounts(w, id, u, v, i);
      }
    }
  }

  lemma StepIsSend(w: World, id: string, u: string)
    ensures Step(w, OpSend(id, u)) == Send(w, id, u)
  {
  }

  lemma SendCounts(w: World, id: string, u: string, v: string, i: string)
    requires MemberOf(w, id, u) && Distinct(w.rooms[id].members)
    ensures Counted(w, Send(w, id, u).0, id, u, v, i)
  {
    var ms := w.rooms[id].members;
    WithoutKeepsDistinct(ms, u);
    BumpedAt(w.unread, Without(ms, u), id, (v, i));
    WithoutMembers(ms, u, v);
  }

  /** Fetching the history is granted for existing rooms, private ones to members only, when the cursor
      is good; it resets the reader's counter and stamps the receipt. */
  lemma FetchEffect(w: World, id: string, u: string, cursorOk: bool)
    ensures var (w', r) := Step(w, OpFetch(id, u, cursorOk));
            && (r == Err(NotMember) <==> TurnedAway(w, id, u))
            && (r == Err(RoomNotFound) <==> id !in w.rooms)
            && (r.Ok? <==> id in w.rooms && !TurnedAway(w, id, u) && cursorOk)
            && (r.Err? ==> w' == w)
            && (r.Ok? ==>
                  && Unread(w', id, u) == 0
                  && w' == w.(unread := w.unread - {(u, id)}, receipts := w.receipts[(u, id) := w.now], log := w'.log))
  {
  }

  /** Reading a room is granted for existing rooms, private ones to members only; the answer is the room
      as stored, and is in the cache afterwards, for at most five minutes more. */
  lemma GetEffect(w: World, id: string, u: string)
    requires CacheOk(w)
    ensures var (w', r) := Step(w, OpGet(id, u));
            && (r == Err(NotMember) <==> TurnedAway(w, id, u))
            && (r == Err(RoomNotFound) <==> id !in w.rooms)
            && (r.Err? ==> w' == w)
            && (r.Ok? ==>
                  && id in w.rooms && Describes(r, id, w.rooms[id])
                  && id in w'.cache && w.now < w'.cache[id].expiresAt && r == Ok(View(w'.cache[id].value))
                  && (w'.cache == w.cache || (w'.cache - {id} == w.cache - {id}
                                              && w'.cache[id].expiresAt == w.now + 300 * 1000))
                  && w' == w.(cache := w'.cache))
  {
    assert EntryOk(w, id);
  }

  function RoleOf(w: World, id: string, u: string): Option<Role> {
    if id in w.rooms && Find(w.rooms[id].members, u).Some? then Some(Find(w.rooms[id].members, u).value.role) else None
  }

  /** Why a kick is refused, in the order the gates and the service ask. */
  lemma KickRefusals(w: World, id: string, actor: string, target: string)
    ensures var r, a, t := Step(w, OpKick(id, actor, target)).1, RoleOf(w, id, actor), RoleOf(w, id, target);
            if a.None? then r == Err(NotMember)
            else if a == Some(Plain) then r == Err(InsufficientRole)
            else if t.None? then r == Err(TargetNotMember)
            else if t == Some(Owner) then r == Err(KickOwner)
            else if a == Some(Admin) && t == Some(Admin) then r == Err(InsufficientRole)
            else r.Ok?
  {
  }

  /** And a role change. */
  lemma SetRoleRefusals(w: World, id: string, actor: string, target: string, newRole: Role)
    ensures var r, a, t := Step(w, OpSetRole(id, actor, target, newRole)).1, RoleOf(w, id, actor), RoleOf(w, id, target);
            if a.None? then r == Err(NotMember)
            else if a == Some(Plain) then r == Err(InsufficientRole)
            else if newRole == Owner then r == Err(InvalidRole)
            else if t.None? then r == Err(TargetNotMember)
            else if t == Some(Owner) then r == Err(ChangeOwnerRole)
            else if a == Some(Admin) && newRole == Admin then r == Err(InsufficientRole)
            else r.Ok?
  {
  }

  /** And a deletion. */
  lemma DeleteRefusals(w: World, id: string, u: string)
    ensures var r, a := Step(w, OpDelete(id, u)).1, RoleOf(w, id, u);
            if a.None? then r == Err(NotMember)
            else if a != Some(Owner) then r == Err(InsufficientRole)
            else r.Ok?
  {
  }
}
