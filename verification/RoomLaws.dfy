/** What every reachable room world satisfies: roles, tenure, the cache and unread counters. */
module RoomLaws {
  import opened Common
  import opened Rooms

  /* Member lists */

  ghost predicate Distinct(ms: seq<Member>) {
    forall i, j :: 0 <= i < j < |ms| ==> ms[i].userId != ms[j].userId
  }

  ghost predicate InOrder(ms: seq<Member>) {
    forall i, j :: 0 <= i < j < |ms| ==> ms[i].joinedAt <= ms[j].joinedAt
  }

  /** Ordered by time of joining, none in the future. */
  ghost predicate Tenured(ms: seq<Member>, now: int) {
    InOrder(ms) && forall m <- ms :: m.joinedAt <= now
  }

  ghost predicate SoleOwner(ms: seq<Member>, u: string) {
    IsMember(ms, u) && forall m <- ms :: m.role.Owner? <==> m.userId == u
  }

  /** A group room has exactly one owner, so is not empty; a direct-message room has only plain members. */
  ghost predicate RolesOk(room: Room) {
    if room.kind.Group? then exists u :: SoleOwner(room.members, u)
    else room.isPrivate && forall m <- room.members :: m.role.Plain?
  }

  ghost predicate RoomOk(room: Room, now: int) {
    Distinct(room.members) && Tenured(room.members, now) && RolesOk(room)
  }

  ghost predicate RoomsOk(w: World) {
    forall id <- w.rooms :: RoomOk(w.rooms[id], w.now)
  }

  lemma {:induction false} WithoutKeepsDistinct(ms: seq<Member>, u: string)
    requires Distinct(ms)
    ensures Distinct(Without(ms, u))
  {
    if ms != [] {
      WithoutKeepsDistinct(ms[1..], u);
      forall m <- Without(ms[1..], u)
        ensures m.userId != ms[0].userId
      {
        var i :| 0 <= i < |ms[1..]| && ms[1..][i] == m;
        assert ms[i + 1] == m;
      }
    }
  }

  lemma {:induction false} WithoutKeepsOrder(ms: seq<Member>, u: string)
    requires InOrder(ms)
    ensures InOrder(Without(ms, u))
  {
    if ms != [] {
      WithoutKeepsOrder(ms[1..], u);
      forall m <- Without(ms[1..], u)
        ensures ms[0].joinedAt <= m.joinedAt
      {
        var i :| 0 <= i < |ms[1..]| && ms[1..][i] == m;
        assert ms[i + 1] == m;
      }
    }
  }

  /* The heir */

  lemma HeadIsFirst(ms: seq<Member>)
    requires ms != []
    ensures forall m :: m in ms <==> m == ms[0] || m in ms[1..]
    ensures InOrder(ms) ==> forall m <- ms[1..] :: ms[0].joinedAt <= m.joinedAt
  {
  }

  /** No admin but `u` precedes the one found, in place and so in tenure. */
  lemma {:induction false} FirstAdminIsFirst(ms: seq<Member>, u: string)
    requires InOrder(ms)
    ensures FirstAdmin(ms, u).None? <==> forall m <- ms :: m.role.Admin? ==> m.userId == u
    ensures var h := FirstAdmin(ms, u);
            h.Some? ==>
              && h.value in ms && h.value.role.Admin? && h.value.userId != u
              && forall m <- ms :: m.role.Admin? && m.userId != u ==> h.value.joinedAt <= m.joinedAt
  {
    if ms != [] {
      FirstAdminIsFirst(ms[1..], u);
      HeadIsFirst(ms);
    }
  }

  lemma {:induction false} FirstOtherIsFirst(ms: seq<Member>, u: string)
    requires InOrder(ms)
    ensures FirstOther(ms, u).None? <==> forall m <- ms :: m.userId == u
    ensures var h := FirstOther(ms, u);
            h.Some? ==> && h.value in ms && h.value.userId != u
                        && forall m <- ms :: m.userId != u ==> h.value.joinedAt <= m.joinedAt
  {
    if ms != [] {
      FirstOtherIsFirst(ms[1..], u);
      HeadIsFirst(ms);
    }
  }

  /** `h` is the longest-tenured admin other than `u`, or the longest-tenured other member when
      there is no such admin. */
  ghost predicate IsHeir(ms: seq<Member>, u: string, h: Member) {
    && h in ms && h.userId != u
    && if exists m <- ms :: m.role.Admin? && m.userId != u
       then h.role.Admin? && forall m <- ms :: m.role.Admin? && m.userId != u ==> h.joinedAt <= m.joinedAt
       else forall m <- ms :: m.userId != u ==> h.joinedAt <= m.joinedAt
  }

  lemma HeirIsLongestTenured(ms: seq<Member>, u: string)
    requires InOrder(ms)
    ensures Heir(ms, u).None? <==> forall m <- ms :: m.userId == u
    ensures Heir(ms, u).Some? ==> IsHeir(ms, u, Heir(ms, u).value)
  {
    FirstAdminIsFirst(ms, u);
    FirstOtherIsFirst(ms, u);
  }

  /** When the owner leaves, the room is deleted exactly when nobody else is in it; otherwise the
      heir, and nobody else, owns it, and every other member keeps role and place. */
  lemma {:induction false} OwnerLeaves(w: World, id: string, u: string)
    requires RoomsOk(w) && id in w.rooms && SoleOwner(w.rooms[id].members, u)
    ensures var w', ms := LeaveRoom(w, id, u).0, w.rooms[id].members;
            && (id !in w'.rooms <==> forall m <- ms :: m.userId == u)
            && (id in w'.rooms ==> exists h ::
                  && IsHeir(ms, u, h) && SoleOwner(w'.rooms[id].members, h.userId)
                  && w'.rooms[id].members == Without(WithRole(ms, h.userId, Owner), u))
  {
    var ms := w.rooms[id].members;
    assert RoomOk(w.rooms[id], w.now);
    HeirIsLongestTenured(ms, u);
    if Heir(ms, u).Some? {
      PassOwnership(ms, u, Heir(ms, u).value);
    }
  }

  lemma PassOwnership(ms: seq<Member>, u: string, h: Member)
    requires SoleOwner(ms, u) && h in ms && h.userId != u
    ensures SoleOwner(Without(WithRole(ms, h.userId, Owner), u), h.userId)
  {
  }

  /* The log */

  /** Whether the last thing the log says of the user in the room is that they joined. */
  ghost predicate InRoom(log: seq<Event>, id: string, u: string) {
    log != [] &&
    var last := log[|log| - 1];
    if last.Joined? && last.room == id && last.user == u then true
    else if (last.Left? && last.room == id && last.user == u) || (last.Closed? && last.room == id) then false
    else InRoom(log[..|log| - 1], id, u)
  }

  /** How many messages others posted to the room since the user last joined it or fetched its history. */
  ghost function PostsSince(log: seq<Event>, id: string, u: string): nat {
    if log == [] then 0
    else
      var last := log[|log| - 1];
      if (last.Joined? || last.Fetched?) && last.room == id && last.user == u then 0
      else PostsSince(log[..|log| - 1], id, u)
           + if last.Posted? && last.room == id && last.user != u then 1 else 0
  }

  /** Whether the room was private when the user last joined it. */
  ghost predicate JoinedPrivate(log: seq<Event>, id: string, u: string) {
    log != [] &&
    var last := log[|log| - 1];
    if last.Joined? && last.room == id && last.user == u then last.isPrivate
    else JoinedPrivate(log[..|log| - 1], id, u)
  }

  lemma LogPush(log: seq<Event>, e: Event, id: string, u: string)
    ensures InRoom(log + [e], id, u)
       <==> if e.Joined? && e.room == id && e.user == u then true
            else if (e.Left? && e.room == id && e.user == u) || (e.Closed? && e.room == id) then false
            else InRoom(log, id, u)
    ensures PostsSince(log + [e], id, u)
         == if (e.Joined? || e.Fetched?) && e.room == id && e.user == u then 0
            else PostsSince(log, id, u) + if e.Posted? && e.room == id && e.user != u then 1 else 0
    ensures JoinedPrivate(log + [e], id, u)
       <==> if e.Joined? && e.room == id && e.user == u then e.isPrivate else JoinedPrivate(log, id, u)
  {
  }

  predicate MemberOf(w: World, id: string, u: string) {
    id in w.rooms && IsMember(w.rooms[id].members, u)
  }

  function Unread(w: World, id: string, u: string): nat {
    Value(w.unread, (u, id))
  }

  /** Membership is what the log says, privacy is what it was on joining, and the counter of a member
      is what the log counts; nobody else has a counter. */
  ghost predicate TallyOk(w: World, id: string, u: string) {
    && (InRoom(w.log, id, u) <==> MemberOf(w, id, u))
    && (MemberOf(w, id, u) ==> (JoinedPrivate(w.log, id, u) <==> w.rooms[id].isPrivate))
    && (if MemberOf(w, id, u) then Unread(w, id, u) == PostsSince(w.log, id, u) else (u, id) !in w.unread)
  }

  ghost predicate TalliesOk(w: World) {
    forall id, u :: TallyOk(w, id, u)
  }

  /** A cache entry agrees with the stored room; a deleted room has none. */
  ghost predicate EntryOk(w: World, id: string) {
    id in w.cache ==> id in w.rooms && w.cache[id].value == ToRoomResponse(id, w.rooms[id])
  }

  ghost predicate CacheOk(w: World) {
    forall id :: EntryOk(w, id)
  }

  ghost predicate NamesOk(w: World) {
    forall a <- w.rooms, b <- w.rooms :: w.rooms[a].name == w.rooms[b].name ==> a == b
  }

  /* Each change keeps them */

  lemma IsMemberAfterPush(ms: seq<Member>, m: Member, u: string)
    ensures IsMember(ms + [m], u) <==> IsMember(ms, u) || m.userId == u
  {
  }

  lemma PushKeepsTally(w: World, id: string, u: string, how: How, id': string, u': string)
    requires id in w.rooms && !IsMember(w.rooms[id].members, u) && TallyOk(w, id, u) && TallyOk(w, id', u')
    ensures TallyOk(Push(w, id, u, how), id', u')
  {
  }

  lemma DropKeepsTally(w: World, id: string, u: string, ms: seq<Member>, id': string, u': string)
    requires id in w.rooms && TallyOk(w, id', u')
    requires IsMember(ms, u') <==> IsMember(w.rooms[id].members, u') && u' != u
    ensures TallyOk(Drop(w, id, u, ms), id', u')
  {
  }

  lemma CloseKeepsTally(w: World, id: string, id': string, u': string)
    requires id in w.rooms && TallyOk(w, id', u')
    ensures TallyOk(Close(w, id), id', u')
  {
  }

  lemma {:induction false} FoundersLog(log: seq<Event>, id: string, ms: seq<Member>, at: int, isPrivate: bool,
                                       id': string, u': string)
    ensures var log' := log + Founders(id, ms, at, isPrivate);
            if id' == id && IsMember(ms, u')
            then InRoom(log', id', u') && PostsSince(log', id', u') == 0 && JoinedPrivate(log', id', u') == isPrivate
            else && InRoom(log', id', u') == InRoom(log, id', u')
                 && PostsSince(log', id', u') == PostsSince(log, id', u')
                 && JoinedPrivate(log', id', u') == JoinedPrivate(log, id', u')
  {
    if ms == [] {
      assert log + [] == log;
    } else {
      var rest, last := ms[..|ms| - 1], ms[|ms| - 1];
      FoundersLog(log, id, rest, at, isPrivate, id', u');
      assert ms == rest + [last];
      IsMemberAfterPush(rest, last, u');
      var e := Joined(id, last.userId, Founder, at, isPrivate);
      LogPush(log + Founders(id, rest, at, isPrivate), e, id', u');
      assert log + Founders(id, ms, at, isPrivate) == (log + Founders(id, rest, at, isPrivate)) + [e];
    }
  }

  lemma FoundKeepsTally(w: World, id: string, room: Room, id': string, u': string)
    requires id !in w.rooms && TallyOk(w, id', u')
    ensures TallyOk(Found(w, id, room), id', u')
  {
    FoundersLog(w.log, id, room.members, w.now, room.isPrivate, id', u');
  }

  function Value(counters: map<(string, string), nat>, k: (string, string)): nat {
    if k in counters then counters[k] else 0
  }

  lemma LastIsNew(ms: seq<Member>)
    requires ms != [] && Distinct(ms)
    ensures Distinct(ms[..|ms| - 1]) && !IsMember(ms[..|ms| - 1], ms[|ms| - 1].userId)
  {
  }

  /** Each member's counter, and no other, goes up by one. */
  lemma {:induction false} BumpedAt(unread: map<(string, string), nat>, ms: seq<Member>, id: string,
                                    k: (string, string))
    requires Distinct(ms)
    ensures var bumped, after := k.1 == id && IsMember(ms, k.0), Bumped(unread, ms, id);
            && (k in after <==> k in unread || bumped)
            && Value(after, k) == Value(unread, k) + if bumped then 1 else 0
  {
    if ms != [] {
      var rest, last := ms[..|ms| - 1], ms[|ms| - 1];
      LastIsNew(ms);
      BumpedAt(unread, rest, id, k);
      var before := Bumped(unread, rest, id);
      assert Bumped(unread, ms, id) == before[(last.userId, id) := Value(before, (last.userId, id)) + 1];
      assert ms == rest + [last];
      IsMemberAfterPush(rest, last, k.0);
    }
  }

  lemma SendKeepsTally(w: World, id: string, u: string, id': string, u': string)
    requires id in w.rooms && IsMember(w.rooms[id].members, u) && Distinct(w.rooms[id].members)
    requires TallyOk(w, id', u')
    ensures TallyOk(Send(w, id, u).0, id', u')
  {
    var others := Without(w.rooms[id].members, u);
    LogPush(w.log, Posted(id, u), id', u');
    WithoutKeepsDistinct(w.rooms[id].members, u);
    BumpedAt(w.unread, others, id, (u', id'));
    assert IsMember(others, u') <==> IsMember(w.rooms[id].members, u') && u' != u by {
      if IsMember(w.rooms[id].members, u') && u' != u {
        var m :| m in w.rooms[id].members && m.userId == u';
        assert m in others;
      }
    }
  }

  lemma FetchKeepsTally(w: World, id: string, u: string, id': string, u': string)
    requires id in w.rooms && TallyOk(w, id', u')
    ensures TallyOk(FetchHistory(w, id, u, true).0, id', u')
  {
  }

  ghost predicate Inv(w: World) {
    RoomsOk(w) && NamesOk(w) && CacheOk(w) && TalliesOk(w)
  }

  /** A room saved under its id, with its cache entry gone, unsettles neither rooms nor cache. */
  lemma SaveKeeps(w: World, w': World, id: string)
    requires RoomsOk(w) && NamesOk(w) && CacheOk(w)
    requires id in w.rooms && id in w'.rooms && w'.rooms == w.rooms[id := w'.rooms[id]]
    requires w'.rooms[id].name == w.rooms[id].name && RoomOk(w'.rooms[id], w.now) && w'.now == w.now
    requires w'.cache == w.cache - {id}
          || (w'.cache == w.cache && ToRoomResponse(id, w'.rooms[id]) == ToRoomResponse(id, w.rooms[id]))
    ensures RoomsOk(w') && NamesOk(w') && CacheOk(w')
  {
    forall i
      ensures EntryOk(w', i)
    {
      assert EntryOk(w, i);
    }
  }

  lemma PushKeepsRoomOk(room: Room, u: string, now: int)
    requires RoomOk(room, now) && !IsMember(room.members, u)
    ensures RoomOk(room.(members := room.members + [Member(u, Plain, now)]), now)
  {
    var ms, m := room.members, Member(u, Plain, now);
    forall v
      ensures IsMember(ms + [m], v) <==> IsMember(ms, v) || v == u
    {
      IsMemberAfterPush(ms, m, v);
    }
    if room.kind.Group? {
      var o :| SoleOwner(ms, o);
      assert SoleOwner(ms + [m], o);
    }
  }

  lemma PushKeeps(w: World, id: string, u: string, how: How)
    requires Inv(w) && id in w.rooms && !IsMember(w.rooms[id].members, u)
    ensures Inv(Push(w, id, u, how))
  {
    var w' := Push(w, id, u, how);
    assert RoomOk(w.rooms[id], w.now);
    PushKeepsRoomOk(w.rooms[id], u, w.now);
    SaveKeeps(w, w', id);
    forall id', u'
      ensures TallyOk(w', id', u')
    {
      assert TallyOk(w, id, u) && TallyOk(w, id', u');
      PushKeepsTally(w, id, u, how, id', u');
    }
  }

  lemma DropKeeps(w: World, id: string, u: string, ms: seq<Member>)
    requires Inv(w) && id in w.rooms && RoomOk(w.rooms[id].(members := ms), w.now)
    requires forall u' :: IsMember(ms, u') <==> IsMember(w.rooms[id].members, u') && u' != u
    ensures Inv(Drop(w, id, u, ms))
  {
    var w' := Drop(w, id, u, ms);
    SaveKeeps(w, w', id);
    forall id', u'
      ensures TallyOk(w', id', u')
    {
      assert TallyOk(w, id', u');
      DropKeepsTally(w, id, u, ms, id', u');
    }
  }

  lemma CloseKeeps(w: World, id: string)
    requires Inv(w) && id in w.rooms
    ensures Inv(Close(w, id))
  {
    var w' := Close(w, id);
    forall i
      ensures EntryOk(w', i)
    {
      assert EntryOk(w, i);
    }
    forall id', u'
      ensures TallyOk(w', id', u')
    {
      assert TallyOk(w, id', u');
      CloseKeepsTally(w, id, id', u');
    }
  }

  lemma FoundKeeps(w: World, id: string, room: Room)
    requires Inv(w) && id !in w.rooms && RoomOk(room, w.now) && !NameInUse(w, room.name)
    ensures Inv(Found(w, id, room))
  {
    var w' := Found(w, id, room);
    forall i
      ensures EntryOk(w', i)
    {
      assert EntryOk(w, i);
    }
    forall id', u'
      ensures TallyOk(w', id', u')
    {
      assert TallyOk(w, id', u');
      FoundKeepsTally(w, id, room, id', u');
    }
  }

  /** What is left of a list without a member who does not own the room. */
  lemma WithoutKeepsRoomOk(room: Room, u: string, now: int)
    requires Distinct(room.members) && Tenured(room.members, now)
    requires if room.kind.Group? then exists o :: SoleOwner(room.members, o) && o != u else RolesOk(room)
    ensures RoomOk(room.(members := Without(room.members, u)), now)
  {
    WithoutKeepsDistinct(room.members, u);
    WithoutKeepsOrder(room.members, u);
    if room.kind.Group? {
      var o :| SoleOwner(room.members, o) && o != u;
      assert SoleOwner(Without(room.members, u), o);
    }
  }

  lemma WithoutMembers(ms: seq<Member>, u: string, v: string)
    ensures IsMember(Without(ms, u), v) <==> IsMember(ms, v) && v != u
  {
  }

  lemma WithRoleMembers(ms: seq<Member>, u: string, role: Role, v: string)
    ensures IsMember(WithRole(ms, u, role), v) <==> IsMember(ms, v)
  {
  }

  lemma WithRoleKeepsPlace(ms: seq<Member>, u: string, role: Role, now: int)
    requires Distinct(ms) && Tenured(ms, now)
    ensures Distinct(WithRole(ms, u, role)) && Tenured(WithRole(ms, u, role), now)
  {
  }

  /** A role other than owner given to someone other than the owner. */
  lemma WithRoleKeepsRoomOk(room: Room, u: string, role: Role, now: int)
    requires RoomOk(room, now) && room.kind.Group? && !role.Owner?
    requires Find(room.members, u).Some? && !Find(room.members, u).value.role.Owner?
    ensures RoomOk(room.(members := WithRole(room.members, u, role)), now)
  {
    WithRoleKeepsPlace(room.members, u, role, now);
    var o :| SoleOwner(room.members, o);
    WithRoleMembers(room.members, u, role, o);
    assert o != u;
    assert SoleOwner(WithRole(room.members, u, role), o);
  }

  /* Each operation keeps them */

  /** Fields that no law mentions. */
  lemma OtherFields(w: World, receipts: map<(string, string), int>, invites: map<string, Invite>)
    requires Inv(w)
    ensures Inv(w.(receipts := receipts, invites := invites))
  {
    var w' := w.(receipts := receipts, invites := invites);
    forall id
      ensures EntryOk(w', id)
    {
      assert EntryOk(w, id);
    }
    forall id, u
      ensures TallyOk(w', id, u)
    {
      assert TallyOk(w, id, u);
    }
  }

  /** In a group room, a member who is found not to be the owner is not the owner. */
  lemma OwnerIsElse(room: Room, u: string, now: int)
    requires RoomOk(room, now) && Find(room.members, u).Some? && !Find(room.members, u).value.role.Owner?
    ensures if room.kind.Group? then exists o :: SoleOwner(room.members, o) && o != u else RolesOk(room)
  {
  }

  lemma DropOtherKeeps(w: World, id: string, u: string)
    requires Inv(w) && id in w.rooms
    requires Find(w.rooms[id].members, u).Some? && !Find(w.rooms[id].members, u).value.role.Owner?
    ensures Inv(Drop(w, id, u, Without(w.rooms[id].members, u)))
  {
    var room := w.rooms[id];
    assert RoomOk(room, w.now);
    OwnerIsElse(room, u, w.now);
    WithoutKeepsRoomOk(room, u, w.now);
    forall v
      ensures IsMember(Without(room.members, u), v) <==> IsMember(room.members, v) && v != u
    {
      WithoutMembers(room.members, u, v);
    }
    DropKeeps(w, id, u, Without(room.members, u));
  }

  /** The list an owner leaves to the heir. */
  lemma InheritedRoomOk(room: Room, u: string, h: Member, now: int)
    requires RoomOk(room, now) && room.kind.Group? && SoleOwner(room.members, u)
    requires h in room.members && h.userId != u
    ensures RoomOk(room.(members := Without(WithRole(room.members, h.userId, Owner), u)), now)
  {
    var ms' := WithRole(room.members, h.userId, Owner);
    WithRoleKeepsPlace(room.members, h.userId, Owner, now);
    PassOwnership(room.members, u, h);
    WithoutKeepsDistinct(ms', u);
    WithoutKeepsOrder(ms', u);
  }

  lemma DropOwnerKeeps(w: World, id: string, u: string, h: Member)
    requires Inv(w) && id in w.rooms && h in w.rooms[id].members && h.userId != u
    requires Find(w.rooms[id].members, u).Some? && Find(w.rooms[id].members, u).value.role.Owner?
    ensures Inv(Drop(w, id, u, Without(WithRole(w.rooms[id].members, h.userId, Owner), u)))
  {
    var room := w.rooms[id];
    var ms' := WithRole(room.members, h.userId, Owner);
    assert RoomOk(room, w.now);
    assert SoleOwner(room.members, u);
    InheritedRoomOk(room, u, h, w.now);
    forall v
      ensures IsMember(Without(ms', u), v) <==> IsMember(room.members, v) && v != u
    {
      WithRoleMembers(room.members, h.userId, Owner, v);
      WithoutMembers(ms', u, v);
    }
    DropKeeps(w, id, u, Without(ms', u));
  }

  lemma LeaveKeeps(w: World, id: string, u: string)
    requires Inv(w)
    ensures Inv(LeaveRoom(w, id, u).0)
  {
    if id in w.rooms && Find(w.rooms[id].members, u).Some? {
      var ms := w.rooms[id].members;
      assert RoomOk(w.rooms[id], w.now);
      HeirIsLongestTenured(ms, u);
      if !Find(ms, u).value.role.Owner? {
        DropOtherKeeps(w, id, u);
        OtherFields(Drop(w, id, u, Without(ms, u)), w.receipts - {(u, id)}, w.invites);
      } else if Heir(ms, u).Some? {
        var h := Heir(ms, u).value;
        DropOwnerKeeps(w, id, u, h);
        OtherFields(Drop(w, id, u, Without(WithRole(ms, h.userId, Owner), u)), w.receipts - {(u, id)}, w.invites);
      } else {
        CloseKeeps(w, id);
      }
    }
  }

  lemma SetRoleKeeps(w: World, id: string, actor: string, target: string, newRole: Role)
    requires Inv(w) && RoleGate(w, id, actor, Admin).None?
    ensures Inv(SetMemberRole(w, id, actor, target, newRole).0)
  {
    var w' := SetMemberRole(w, id, actor, target, newRole).0;
    if w' != w {
      var room := w.rooms[id];
      assert RoomOk(room, w.now);
      assert room.kind.Group?;
      WithRoleKeepsRoomOk(room, target, newRole, w.now);
      SaveKeeps(w, w', id);
      forall id', u'
        ensures TallyOk(w', id', u')
      {
        assert TallyOk(w, id', u');
        WithRoleMembers(room.members, target, newRole, u');
      }
    }
  }

  lemma JoinViaInviteKeeps(w: World, token: string, u: string)
    requires Inv(w)
    ensures Inv(JoinViaInvite(w, token, u).0)
  {
    OtherFields(w, w.receipts, w.invites - {token});
    var w1 := w.(invites := w.invites - {token});
    if token in w.invites && MemberOf(w1, w.invites[token].roomId, u) {
    } else if token in w.invites && w.invites[token].roomId in w.rooms {
      PushKeeps(w1, w.invites[token].roomId, u, ByInvite(token));
    }
  }

  lemma CreateKeeps(w: World, op: Op)
    requires Inv(w) && (op.OpCreate? || op.OpCreateDm?) && OpOk(w, op)
    ensures Inv(Perform(w, op).0)
  {
    match op
    case OpCreate(id, u, name, description, isPrivate) =>
      var room := Room(name, description, u, [Member(u, Owner, w.now)], isPrivate, Group, w.now);
      assert SoleOwner(room.members, u);
      if !NameInUse(w, name) {
        FoundKeeps(w, id, room);
      }
    case OpCreateDm(id, a, b, dmKey) =>
      var room := Room(dmKey, None, a, [Member(a, Plain, w.now), Member(b, Plain, w.now)], true, Dm, w.now);
      if !NameInUse(w, dmKey) {
        FoundKeeps(w, id, room);
      }
  }

  lemma GetKeeps(w: World, id: string)
    requires Inv(w)
    ensures Inv(GetRoomById(w, id).0)
  {
    var w' := GetRoomById(w, id).0;
    forall i
      ensures EntryOk(w', i)
    {
      assert EntryOk(w, i);
    }
    forall i, u
      ensures TallyOk(w', i, u)
    {
      assert TallyOk(w, i, u);
    }
  }

  lemma LogOnlyKeeps(w: World, op: Op)
    requires Inv(w) && (op.OpSend? || op.OpFetch? || op.OpInvite? || op.OpTick?) && OpOk(w, op)
    ensures Inv(Perform(w, op).0)
  {
    var w' := Perform(w, op).0;
    forall id
      ensures EntryOk(w', id)
    {
      assert EntryOk(w, id);
    }
    forall id, u
      ensures TallyOk(w', id, u)
    {
      assert TallyOk(w, id, u);
      match op
      case OpSend(r, s) =>
        if MemberOf(w, r, s) {
          assert RoomOk(w.rooms[r], w.now);
          SendKeepsTally(w, r, s, id, u);
        }
      case OpFetch(r, v, cursorOk) =>
        if r in w.rooms && cursorOk {
          FetchKeepsTally(w, r, v, id, u);
        }
      case OpInvite(r, v, token) =>
        LogPush(w.log, Invited(token, r, v, w.now), id, u);
      case OpTick(_) =>
    }
  }

  /** New room ids are fresh, the two users of a direct message differ, and the clock does not go back. */
  ghost predicate OpOk(w: World, op: Op) {
    match op
    case OpCreate(id, _, _, _, _) => id !in w.rooms
    case OpCreateDm(id, a, b, _) => id !in w.rooms && a != b
    case OpTick(to) => w.now <= to
    case _ => true
  }

  lemma JoinKeeps(w: World, id: string, u: string)
    requires Inv(w)
    ensures Inv(JoinRoom(w, id, u).0)
  {
    if id in w.rooms && !IsMember(w.rooms[id].members, u) {
      PushKeeps(w, id, u, Public);
    }
  }

  /** A kick is refused or drops the target, who does not own the room. */
  lemma KickShape(w: World, id: string, actor: string, target: string)
    ensures var (w', r) := KickMember(w, id, actor, target);
            if r.Err? then w' == w
            else && id in w.rooms && Find(w.rooms[id].members, target).Some?
                 && !Find(w.rooms[id].members, target).value.role.Owner?
                 && w' == Drop(w, id, target, Without(w.rooms[id].members, target))
  {
  }

  lemma KickKeeps(w: World, id: string, actor: string, target: string)
    requires Inv(w)
    ensures Inv(KickMember(w, id, actor, target).0)
  {
    KickShape(w, id, actor, target);
    if KickMember(w, id, actor, target).1.Ok? {
      DropOtherKeeps(w, id, target);
    }
  }

  lemma DeleteKeeps(w: World, id: string, u: string)
    requires Inv(w)
    ensures Inv(DeleteRoom(w, id, u).0)
  {
    if id in w.rooms {
      CloseKeeps(w, id);
    }
  }

  lemma StepKeepsInv(w: World, op: Op)
    requires Inv(w) && OpOk(w, op)
    ensures Inv(Step(w, op).0)
  {
    if op.OpJoin? {
      JoinKeeps(w, op.id, op.user);
    } else if op.OpJoinInvite? {
      JoinViaInviteKeeps(w, op.token, op.user);
    } else if op.OpLeave? {
      LeaveKeeps(w, op.id, op.user);
    } else if op.OpKick? {
      KickKeeps(w, op.id, op.user, op.target);
    } else if op.OpDelete? {
      DeleteKeeps(w, op.id, op.user);
    } else if op.OpSetRole? {
      if RoleGate(w, op.id, op.user, Admin).None? {
        SetRoleKeeps(w, op.id, op.user, op.target, op.newRole);
      }
    } else if op.OpCreate? || op.OpCreateDm? {
      CreateKeeps(w, op);
    } else if op.OpGet? {
      GetKeeps(w, op.id);
    } else {
      LogOnlyKeeps(w, op);
    }
  }

  /* Runs */

  const EMPTY := World(map[], map[], map[], map[], map[], 0, [])

  function Run(w: World, ops: seq<Op>): World
    decreases |ops|
  {
    if ops == [] then w else Run(Step(w, ops[0]).0, ops[1..])
  }

  lemma {:induction false} RunPush(w: World, ops: seq<Op>, op: Op)
    ensures Run(w, ops + [op]) == Step(Run(w, ops), op).0
    decreases |ops|
  {
    if ops != [] {
      assert (ops + [op])[1..] == ops[1..] + [op];
      RunPush(Step(w, ops[0]).0, ops[1..], op);
    } else {
      assert [op][1..] == [];
    }
  }

  ghost predicate Possible(w: World, ops: seq<Op>)
    decreases |ops|
  {
    ops == [] || (OpOk(w, ops[0]) && Possible(Step(w, ops[0]).0, ops[1..]))
  }

  lemma {:induction false} RunKeepsInv(w: World, ops: seq<Op>)
    requires Inv(w) && Possible(w, ops)
    ensures Inv(Run(w, ops))
    decreases |ops|
  {
    if ops != [] {
      StepKeepsInv(w, ops[0]);
      RunKeepsInv(Step(w, ops[0]).0, ops[1..]);
    }
  }

  /** Every reachable world: rooms are well formed, names unique, the cache agrees with the stored
      rooms, and memberships and counters are what the history says. */
  lemma ReachableIsOk(ops: seq<Op>)
    requires Possible(EMPTY, ops)
    ensures Inv(Run(EMPTY, ops))
  {
    RunKeepsInv(EMPTY, ops);
  }

  /** Unread conservation, for any run: a member's counter is the number of messages others posted
      since the later of the member's last join and last fetch; nobody else has one. */
  lemma UnreadIsConserved(ops: seq<Op>, id: string, u: string)
    requires Possible(EMPTY, ops)
    ensures var w := Run(EMPTY, ops);
            if MemberOf(w, id, u) then Unread(w, id, u) == PostsSince(w.log, id, u) else (u, id) !in w.unread
  {
    ReachableIsOk(ops);
    assert TallyOk(Run(EMPTY, ops), id, u);
  }

  /** The cache is invisible: the answer is the one an empty cache would give. */
  lemma CacheIsInvisible(ops: seq<Op>, id: string)
    requires Possible(EMPTY, ops)
    ensures var w := Run(EMPTY, ops); GetRoomById(w, id).1 == GetRoomById(w.(cache := map[]), id).1
  {
    ReachableIsOk(ops);
    assert EntryOk(Run(EMPTY, ops), id);
  }

  ghost predicate IsDm(w: World, id: string) {
    id in w.rooms && w.rooms[id].kind.Dm?
  }

  /** Members of a direct-message room find no owner in it. */
  lemma DmHasNoOwner(w: World, id: string, u: string)
    requires RoomsOk(w) && IsDm(w, id)
    ensures Find(w.rooms[id].members, u).Some? ==> Find(w.rooms[id].members, u).value.role.Plain?
  {
  }

  /** The direct-message room is still there under its name. */
  ghost predicate KeepsDm(w: World, w': World, dm: string)
    requires dm in w.rooms
  {
    IsDm(w', dm) && w'.rooms[dm].name == w.rooms[dm].name
  }

  /** Leaving closes a room only when its owner leaves it; otherwise it saves that room's members. */
  lemma LeaveShape(w: World, id: string, u: string)
    ensures var w' := LeaveRoom(w, id, u).0;
            || w' == w
            || (id in w.rooms && Find(w.rooms[id].members, u).Some?
                && Find(w.rooms[id].members, u).value.role.Owner? && w' == Close(w, id))
            || (id in w.rooms && exists ms :: w'.rooms == w.rooms[id := w.rooms[id].(members := ms)])
  {
  }

  lemma LeaveKeepsDm(w: World, id: string, u: string, dm: string)
    requires RoomsOk(w) && IsDm(w, dm)
    ensures KeepsDm(w, LeaveRoom(w, id, u).0, dm)
  {
    DmHasNoOwner(w, dm, u);
    LeaveShape(w, id, u);
  }

  lemma DeleteKeepsDm(w: World, id: string, u: string, dm: string)
    requires RoomsOk(w) && IsDm(w, dm)
    ensures KeepsDm(w, DeleteRoom(w, id, u).0, dm)
  {
  }

  lemma KickKeepsDm(w: World, id: string, actor: string, target: string, dm: string)
    requires IsDm(w, dm)
    ensures KeepsDm(w, KickMember(w, id, actor, target).0, dm)
  {
    KickShape(w, id, actor, target);
  }

  /** The operations that leave every room as it is. */
  predicate LeavesRooms(op: Op) {
    op.OpGet? || op.OpInvite? || op.OpSend? || op.OpFetch? || op.OpTick?
  }

  lemma RoomsAreLeft(w: World, op: Op)
    requires LeavesRooms(op)
    ensures Perform(w, op).0.rooms == w.rooms
  {
  }

  lemma JoinInviteKeepsDm(w: World, token: string, u: string, dm: string)
    requires IsDm(w, dm)
    ensures KeepsDm(w, JoinViaInvite(w, token, u).0, dm)
  {
  }

  lemma CreateKeepsDm(w: World, op: Op, dm: string)
    requires OpOk(w, op) && IsDm(w, dm) && (op.OpCreate? || op.OpCreateDm?)
    ensures KeepsDm(w, Perform(w, op).0, dm)
  {
  }

  lemma JoinKeepsDm(w: World, id: string, u: string, dm: string)
    requires IsDm(w, dm)
    ensures KeepsDm(w, JoinRoom(w, id, u).0, dm)
  {
  }

  lemma SetRoleKeepsDm(w: World, id: string, actor: string, target: string, newRole: Role, dm: string)
    requires IsDm(w, dm)
    ensures KeepsDm(w, SetMemberRole(w, id, actor, target, newRole).0, dm)
  {
  }

  /** Nothing deletes or renames a direct-message room. */
  lemma {:induction false} StepKeepsDm(w: World, op: Op, dm: string)
    requires RoomsOk(w) && OpOk(w, op) && IsDm(w, dm)
    ensures KeepsDm(w, Step(w, op).0, dm)
  {
    if op.OpLeave? {
      LeaveKeepsDm(w, op.id, op.user, dm);
    } else if op.OpKick? {
      KickKeepsDm(w, op.id, op.user, op.target, dm);
    } else if op.OpDelete? {
      DeleteKeepsDm(w, op.id, op.user, dm);
    } else if op.OpJoinInvite? {
      JoinInviteKeepsDm(w, op.token, op.user, dm);
    } else if LeavesRooms(op) {
      RoomsAreLeft(w, op);
    } else if op.OpJoin? {
      JoinKeepsDm(w, op.id, op.user, dm);
    } else if op.OpSetRole? {
      SetRoleKeepsDm(w, op.id, op.user, op.target, op.newRole, dm);
    } else {
      CreateKeepsDm(w, op, dm);
    }
  }
}
