/** Who may come into a room and who may move whom: provenance over whole runs. */
module RoomHistory {
  import opened Common
  import opened Rooms
  import opened RoomLaws

  /** An invite as the log records it; `byMember` says its issuer was in the room when issuing it. */
  datatype Issue = Issue(room: string, issuer: string, at: int, byMember: bool)

  /** The latest record of the token's issue. */
  ghost function IssueOf(log: seq<Event>, token: string): Option<Issue> {
    if log == [] then None
    else
      var rest, last := log[..|log| - 1], log[|log| - 1];
      if last.Invited? && last.token == token
      then Some(Issue(last.room, last.user, last.at, InRoom(rest, last.room, last.user)))
      else IssueOf(rest, token)
  }

  /** Whether somebody came in on the token. */
  ghost predicate Used(log: seq<Event>, token: string) {
    exists e <- log :: e.Joined? && e.how == ByInvite(token)
  }

  /** Nobody is in the room yet, save the other founder of a direct message just recorded. */
  ghost predicate Founding(log: seq<Event>, e: Event)
    requires e.Joined?
  {
    forall v :: InRoom(log, e.room, v) ==> log[|log| - 1] == Joined(e.room, v, Founder, e.at, e.isPrivate)
  }

  /** A join after `log`: by founding the room, into a public room, or on an invite that a then-member
      issued for that room less than 48 hours ago and that nobody has come in on before. */
  ghost predicate JoinJustified(log: seq<Event>, e: Event)
    requires e.Joined?
  {
    match e.how
    case Founder => Founding(log, e)
    case Public => !e.isPrivate
    case ByInvite(token) =>
      var issue := IssueOf(log, token);
      && issue.Some? && issue.value.room == e.room && issue.value.byMember
      && e.at < issue.value.at + INVITE_MS
      && !Used(log, token)
  }

  ghost predicate AllJustified(log: seq<Event>) {
    log == [] ||
    var rest, last := log[..|log| - 1], log[|log| - 1];
    AllJustified(rest) && (last.Joined? ==> JoinJustified(rest, last))
  }

  /** An invite on offer was issued by a member, as recorded, and has not been used. */
  ghost predicate InviteOk(w: World, token: string) {
    token in w.invites ==>
      var i := w.invites[token];
      && IssueOf(w.log, token) == Some(Issue(i.roomId, i.createdBy, i.expiresAt - INVITE_MS, true))
      && !Used(w.log, token)
  }

  ghost predicate InvitesOk(w: World) {
    forall token :: InviteOk(w, token)
  }

  ghost predicate HistoryInv(w: World) {
    InvitesOk(w) && AllJustified(w.log)
  }

  lemma IssuePush(log: seq<Event>, e: Event, token: string)
    ensures IssueOf(log + [e], token)
         == if e.Invited? && e.token == token then Some(Issue(e.room, e.user, e.at, InRoom(log, e.room, e.user)))
            else IssueOf(log, token)
    ensures Used(log + [e], token) <==> Used(log, token) || (e.Joined? && e.how == ByInvite(token))
  {
  }

  lemma JustifiedPush(log: seq<Event>, e: Event)
    ensures AllJustified(log + [e]) <==> AllJustified(log) && (e.Joined? ==> JoinJustified(log, e))
  {
  }

  lemma {:induction false} UsedWasIssued(log: seq<Event>, token: string)
    requires AllJustified(log) && Used(log, token)
    ensures IssueOf(log, token).Some?
  {
    var rest, last := log[..|log| - 1], log[|log| - 1];
    assert log == rest + [last];
    IssuePush(rest, last, token);
    if Used(rest, token) {
      UsedWasIssued(rest, token);
    }
  }

  /** A token comes from the random source, so it has not been issued before. */
  ghost predicate FreshToken(w: World, op: Op) {
    op.OpInvite? ==> IssueOf(w.log, op.token).None?
  }

  /** Recording an event that is neither an issue nor a join on an invite. */
  lemma PlainEventKeeps(w: World, w': World, e: Event)
    requires HistoryInv(w) && !e.Invited? && (e.Joined? ==> !e.how.ByInvite? && JoinJustified(w.log, e))
    requires w'.log == w.log + [e] && w'.invites == w.invites
    ensures HistoryInv(w')
  {
    JustifiedPush(w.log, e);
    forall token
      ensures InviteOk(w', token)
    {
      assert InviteOk(w, token);
      IssuePush(w.log, e, token);
    }
  }

  lemma CreateKeepsHistory(w: World, op: Op)
    requires TalliesOk(w) && HistoryInv(w) && op.OpCreate? && OpOk(w, op)
    ensures HistoryInv(Perform(w, op).0)
  {
    var w' := Perform(w, op).0;
    if w' != w {
      var ms := [Member(op.user, Owner, w.now)];
      var e := Joined(op.id, op.user, Founder, w.now, op.isPrivate);
      assert ms[..0] == [];
      assert Founders(op.id, ms, w.now, op.isPrivate) == [e];
      forall v
        ensures !InRoom(w.log, op.id, v)
      {
        assert TallyOk(w, op.id, v);
      }
      PlainEventKeeps(w, w', e);
    }
  }

  lemma TwoFounders(id: string, a: Member, b: Member, at: int, isPrivate: bool)
    ensures Founders(id, [a, b], at, isPrivate)
         == [Joined(id, a.userId, Founder, at, isPrivate), Joined(id, b.userId, Founder, at, isPrivate)]
  {
    assert [a, b][..1] == [a] && [a][..0] == [];
    assert Founders(id, [a], at, isPrivate) == [Joined(id, a.userId, Founder, at, isPrivate)];
  }

  lemma NobodyInFreshRoom(w: World, id: string, e: Event, v: string)
    requires TalliesOk(w) && id !in w.rooms && e.Joined? && e.room == id
    ensures !InRoom(w.log, id, v) && (InRoom(w.log + [e], id, v) <==> v == e.user)
  {
    assert TallyOk(w, id, v);
    LogPush(w.log, e, id, v);
  }

  lemma CreateDmKeepsHistory(w: World, op: Op)
    requires TalliesOk(w) && HistoryInv(w) && op.OpCreateDm? && OpOk(w, op)
    ensures HistoryInv(Perform(w, op).0)
  {
    var w' := Perform(w, op).0;
    if w' != w {
      var a, b := Member(op.user, Plain, w.now), Member(op.target, Plain, w.now);
      var e, f := Joined(op.id, op.user, Founder, w.now, true), Joined(op.id, op.target, Founder, w.now, true);
      TwoFounders(op.id, a, b, w.now, true);
      forall v
        ensures !InRoom(w.log, op.id, v) && (InRoom(w.log + [e], op.id, v) <==> v == op.user)
      {
        NobodyInFreshRoom(w, op.id, e, v);
      }
      var mid := w.(log := w.log + [e]);
      PlainEventKeeps(w, mid, e);
      assert w'.log == mid.log + [f];
      PlainEventKeeps(mid, w', f);
    }
  }

  lemma InviteKeeps(w: World, id: string, u: string, token: string)
    requires HistoryInv(w) && TallyOk(w, id, u) && IssueOf(w.log, token).None?
    ensures HistoryInv(CreateInvite(w, id, u, token).0)
  {
    var w' := CreateInvite(w, id, u, token).0;
    if MemberOf(w, id, u) {
      var e := Invited(token, id, u, w.now);
      JustifiedPush(w.log, e);
      forall t
        ensures InviteOk(w', t)
      {
        assert InviteOk(w, t);
        IssuePush(w.log, e, t);
        if t == token && Used(w.log, token) {
          UsedWasIssued(w.log, token);
        }
      }
    }
  }

  /** Taking an invite off the store, and coming in on it. */
  lemma JoinInviteKeeps(w: World, token: string, u: string)
    requires HistoryInv(w)
    ensures HistoryInv(JoinViaInvite(w, token, u).0)
  {
    var w' := JoinViaInvite(w, token, u).0;
    assert InviteOk(w, token);
    if w'.log == w.log {
      forall t
        ensures InviteOk(w', t)
      {
        assert InviteOk(w, t);
      }
    } else {
      var i := w.invites[token];
      var e := Joined(i.roomId, u, ByInvite(token), w.now, w.rooms[i.roomId].isPrivate);
      assert w'.log == w.log + [e];
      JustifiedPush(w.log, e);
      forall t
        ensures InviteOk(w', t)
      {
        assert InviteOk(w, t);
        IssuePush(w.log, e, t);
      }
    }
  }

  /** No change to the invites, and at most one event recorded: neither an issue nor a join, unless
      into a public room. */
  ghost predicate RecordsLittle(w: World, w': World) {
    && w'.invites == w.invites
    && (w'.log == w.log
        || exists e :: w'.log == w.log + [e] && !e.Invited? && (e.Joined? ==> e.how.Public? && !e.isPrivate))
  }

  lemma RecordsLittleKeeps(w: World, w': World)
    requires HistoryInv(w) && RecordsLittle(w, w')
    ensures HistoryInv(w')
  {
    if w'.log == w.log {
      forall token
        ensures InviteOk(w', token)
      {
        assert InviteOk(w, token);
      }
    } else {
      var e :| w'.log == w.log + [e] && !e.Invited? && (e.Joined? ==> e.how.Public? && !e.isPrivate);
      PlainEventKeeps(w, w', e);
    }
  }

  lemma LeaveRecords(w: World, id: string, u: string)
    ensures RecordsLittle(w, LeaveRoom(w, id, u).0)
  {
  }

  lemma KickRecords(w: World, id: string, actor: string, target: string)
    ensures RecordsLittle(w, KickMember(w, id, actor, target).0)
  {
    KickShape(w, id, actor, target);
  }

  lemma RolesRecord(w: World, id: string, actor: string, target: string, newRole: Role)
    ensures RecordsLittle(w, SetMemberRole(w, id, actor, target, newRole).0)
    ensures RecordsLittle(w, DeleteRoom(w, id, actor).0)
  {
  }

  lemma OthersRecord(w: World, op: Op)
    requires op.OpJoin? || op.OpGet? || op.OpSend? || op.OpFetch? || op.OpTick?
    ensures RecordsLittle(w, Perform(w, op).0)
  {
  }

  lemma StepKeepsHistory(w: World, op: Op)
    requires Inv(w) && HistoryInv(w) && OpOk(w, op) && FreshToken(w, op)
    ensures HistoryInv(Step(w, op).0)
  {
    var w' := Step(w, op).0;
    if w' == w {
    } else if op.OpCreate? {
      CreateKeepsHistory(w, op);
    } else if op.OpCreateDm? {
      CreateDmKeepsHistory(w, op);
    } else if op.OpInvite? {
      assert TallyOk(w, op.id, op.user);
      InviteKeeps(w, op.id, op.user, op.token);
    } else if op.OpJoinInvite? {
      JoinInviteKeeps(w, op.token, op.user);
    } else {
      StepRecordsLittle(w, op);
      RecordsLittleKeeps(w, w');
    }
  }

  lemma StepRecordsLittle(w: World, op: Op)
    requires !op.OpCreate? && !op.OpCreateDm? && !op.OpInvite? && !op.OpJoinInvite?
    ensures RecordsLittle(w, Step(w, op).0)
  {
    if op.OpLeave? {
      LeaveRecords(w, op.id, op.user);
    } else if op.OpKick? {
      KickRecords(w, op.id, op.user, op.target);
    } else if op.OpSetRole? {
      RolesRecord(w, op.id, op.user, op.target, op.newRole);
    } else if op.OpDelete? {
      RolesRecord(w, op.id, op.user, op.user, Plain);
    } else {
      OthersRecord(w, op);
    }
  }

  ghost predicate PossibleFresh(w: World, ops: seq<Op>)
    decreases |ops|
  {
    ops == [] || (OpOk(w, ops[0]) && FreshToken(w, ops[0]) && PossibleFresh(Step(w, ops[0]).0, ops[1..]))
  }

  lemma {:induction false} RunKeepsHistory(w: World, ops: seq<Op>)
    requires Inv(w) && HistoryInv(w) && PossibleFresh(w, ops)
    ensures Inv(Run(w, ops)) && HistoryInv(Run(w, ops))
    decreases |ops|
  {
    if ops != [] {
      StepKeepsInv(w, ops[0]);
      StepKeepsHistory(w, ops[0]);
      RunKeepsHistory(Step(w, ops[0]).0, ops[1..]);
    }
  }

  lemma {:induction false} JustifiedAt(log: seq<Event>, i: nat)
    requires AllJustified(log) && i < |log| && log[i].Joined?
    ensures JoinJustified(log[..i], log[i])
  {
    if i < |log| - 1 {
      JustifiedAt(log[..|log| - 1], i);
      assert log[..|log| - 1][..i] == log[..i];
    } else {
      assert log[..|log| - 1] == log[..i];
    }
  }

  /** Who is in a room joined it, and did so last. */
  lemma {:induction false} MemberJoined(log: seq<Event>, id: string, u: string) returns (i: nat)
    requires InRoom(log, id, u)
    ensures i < |log| && log[i].Joined? && log[i].room == id && log[i].user == u
    ensures log[i].isPrivate <==> JoinedPrivate(log, id, u)
    ensures forall j :: i < j < |log| ==>
              !(log[j].Left? && log[j].room == id && log[j].user == u) && !(log[j].Closed? && log[j].room == id)
  {
    var last := log[|log| - 1];
    if last.Joined? && last.room == id && last.user == u {
      i := |log| - 1;
    } else {
      i := MemberJoined(log[..|log| - 1], id, u);
    }
  }

  /** Provenance, in every run: each join ever recorded into a private room, whether or not the user
      is still there, was by a founder, or on an invite for that room, less than 48 hours old,
      issued by somebody in the room at the time, and used for no earlier join. */
  lemma PrivateJoinsAreInvited(ops: seq<Op>, i: nat)
    requires PossibleFresh(EMPTY, ops)
    requires i < |Run(EMPTY, ops).log| && Run(EMPTY, ops).log[i].Joined? && Run(EMPTY, ops).log[i].isPrivate
    ensures var log := Run(EMPTY, ops).log;
            match log[i].how
            case Founder => Founding(log[..i], log[i])
            case Public => false
            case ByInvite(token) =>
              var issue := IssueOf(log[..i], token);
              && issue.Some? && issue.value.room == log[i].room && issue.value.byMember
              && log[i].at < issue.value.at + INVITE_MS
              && !Used(log[..i], token)
  {
    RunKeepsHistory(EMPTY, ops);
    JustifiedAt(Run(EMPTY, ops).log, i);
  }

  /** Whoever is in a private room has such a join on record, and has not been out since. */
  lemma PrivateMembersWereLetIn(ops: seq<Op>, id: string, u: string) returns (i: nat)
    requires PossibleFresh(EMPTY, ops) && MemberOf(Run(EMPTY, ops), id, u) && Run(EMPTY, ops).rooms[id].isPrivate
    ensures var log := Run(EMPTY, ops).log;
            && i < |log| && log[i].Joined? && log[i].room == id && log[i].user == u && log[i].isPrivate
            && (log[i].how.Founder? || log[i].how.ByInvite?) && JoinJustified(log[..i], log[i])
            && forall j :: i < j < |log| ==>
                 !(log[j].Left? && log[j].room == id && log[j].user == u) && !(log[j].Closed? && log[j].room == id)
  {
    RunKeepsHistory(EMPTY, ops);
    assert TallyOk(Run(EMPTY, ops), id, u);
    i := MemberJoined(Run(EMPTY, ops).log, id, u);
    JustifiedAt(Run(EMPTY, ops).log, i);
  }

  /* Roles */

  /** Through its gates a kick goes through exactly when actor and target are members and the actor's
      rank is strictly higher. */
  lemma KickSucceedsIff(w: World, id: string, actor: string, target: string)
    ensures Step(w, OpKick(id, actor, target)).1.Ok? <==>
            && MemberOf(w, id, actor) && MemberOf(w, id, target)
            && Rank(Find(w.rooms[id].members, actor).value.role) > Rank(Find(w.rooms[id].members, target).value.role)
  {
    if id in w.rooms && IsMember(w.rooms[id].members, actor) && IsMember(w.rooms[id].members, target) {
      var a, t := Find(w.rooms[id].members, actor).value, Find(w.rooms[id].members, target).value;
      assert Rank(a.role) > Rank(t.role) ==> Rank(a.role) >= Rank(Admin) && !t.role.Owner?;
    }
  }

  /** Through its gates a role change goes through exactly when it is to admin or plain member, both
      are members, the target is not the owner, and the actor is the owner, or an admin who demotes. */
  lemma SetRoleSucceedsIff(w: World, id: string, actor: string, target: string, newRole: Role)
    ensures Step(w, OpSetRole(id, actor, target, newRole)).1.Ok? <==>
            && !newRole.Owner? && MemberOf(w, id, actor) && MemberOf(w, id, target)
            && !Find(w.rooms[id].members, target).value.role.Owner?
            && var role := Find(w.rooms[id].members, actor).value.role;
               role.Owner? || (role.Admin? && newRole.Plain?)
  {
  }

  /** Through its gates a deletion goes through exactly for the sole owner of a group room; nobody
      deletes a direct message. */
  lemma DeleteSucceedsIff(w: World, id: string, actor: string)
    requires RoomsOk(w)
    ensures Step(w, OpDelete(id, actor)).1.Ok? <==>
            id in w.rooms && w.rooms[id].kind.Group? && SoleOwner(w.rooms[id].members, actor)
  {
    if id in w.rooms {
      assert RoomOk(w.rooms[id], w.now);
    }
  }

  ghost predicate Holds(ms: seq<Member>, u: string, role: Role) {
    exists m <- ms :: m.userId == u && m.role == role
  }

  ghost predicate HasRole(w: World, id: string, u: string, role: Role) {
    id in w.rooms && Holds(w.rooms[id].members, u, role)
  }

  lemma WithRoleGives(ms: seq<Member>, u: string, role: Role, v: string, r: Role)
    requires Holds(WithRole(ms, u, role), v, r)
    ensures Holds(ms, v, r) || (v == u && r == role)
  {
  }

  /** The only role that a leave, a join or a kick hands out, other than plain membership, is the
      ownership a leaving owner passes on. */
  lemma LeaveGives(w: World, id: string, u: string, v: string, r: Role)
    requires id in w.rooms
    ensures HasRole(LeaveRoom(w, id, u).0, id, v, r) ==> HasRole(w, id, v, r) || (r.Owner? && HasRole(w, id, u, Owner))
  {
    var ms := w.rooms[id].members;
    var member, heir := Find(ms, u), Heir(ms, u);
    if HasRole(LeaveRoom(w, id, u).0, id, v, r) && member.Some? && member.value.role.Owner? && heir.Some? {
      var ms' := WithRole(ms, heir.value.userId, Owner);
      assert Holds(ms', v, r);
      WithRoleGives(ms, heir.value.userId, Owner, v, r);
    }
  }

  lemma SetRoleGives(w: World, id: string, actor: string, target: string, newRole: Role, v: string, r: Role)
    requires RoleGate(w, id, actor, Admin).None?
    requires HasRole(SetMemberRole(w, id, actor, target, newRole).0, id, v, r)
    ensures || HasRole(w, id, v, r)
            || (v == target && r == newRole && !r.Owner? && (r.Admin? ==> HasRole(w, id, actor, Owner)))
  {
    var w' := SetMemberRole(w, id, actor, target, newRole).0;
    if w' != w {
      WithRoleGives(w.rooms[id].members, target, newRole, v, r);
      var a := Find(w.rooms[id].members, actor).value;
      assert a in w.rooms[id].members && Rank(a.role) >= Rank(Admin);
    }
  }

  lemma JoinGives(w: World, op: Op, id: string, v: string, r: Role)
    requires (op.OpJoin? || op.OpJoinInvite?) && id in w.rooms && HasRole(Perform(w, op).0, id, v, r)
    ensures HasRole(w, id, v, r) || r.Plain?
  {
  }

  lemma KickGives(w: World, id: string, actor: string, target: string, id': string, v: string, r: Role)
    requires HasRole(KickMember(w, id, actor, target).0, id', v, r)
    ensures HasRole(w, id', v, r)
  {
  }

  /** In an existing room, whoever newly becomes an admin was made one by the owner, through the role
      route; whoever newly becomes the owner inherits from an owner who leaves. */
  lemma RisesComeFromTheOwner(w: World, op: Op, id: string, u: string, r: Role)
    requires OpOk(w, op) && id in w.rooms && !r.Plain?
    requires HasRole(Step(w, op).0, id, u, r) && !HasRole(w, id, u, r)
    ensures if r.Admin? then op.OpSetRole? && op.id == id && op.target == u && op.newRole.Admin?
                             && HasRole(w, id, op.user, Owner)
            else op.OpLeave? && op.id == id && HasRole(w, id, op.user, Owner)
  {
    if op.OpLeave? {
      LeaveShape(w, op.id, op.user);
      if op.id == id {
        LeaveGives(w, id, op.user, u, r);
      }
    } else if op.OpSetRole? {
      if RoleGate(w, op.id, op.user, Admin).None? {
        SetRoleGives(w, op.id, op.user, op.target, op.newRole, u, r);
      }
    } else if op.OpJoin? || op.OpJoinInvite? {
      JoinGives(w, op, id, u, r);
    } else if op.OpKick? {
      KickGives(w, op.id, op.user, op.target, id, u, r);
    } else if LeavesRooms(op) {
      RoomsAreLeft(w, op);
    }
  }

  /** A step that gives `u` the role: an admin is made by the owner; an owner creates the room or
      inherits it from an owner who leaves. */
  ghost predicate Grants(w: World, op: Op, id: string, u: string, r: Role) {
    if r.Admin? then op.OpSetRole? && op.id == id && op.target == u && op.newRole.Admin? && HasRole(w, id, op.user, Owner)
    else || (op.OpCreate? && op.id == id && op.user == u && id !in w.rooms)
         || (op.OpLeave? && op.id == id && HasRole(w, id, op.user, Owner))
  }

  lemma NewRoomGives(w: World, op: Op, id: string, u: string, r: Role)
    requires id !in w.rooms && HasRole(Step(w, op).0, id, u, r)
    ensures r.Plain? || Grants(w, op, id, u, r)
  {
    if op.OpLeave? {
      LeaveShape(w, op.id, op.user);
    } else if op.OpKick? {
      KickShape(w, op.id, op.user, op.target);
    } else if LeavesRooms(op) {
      RoomsAreLeft(w, op);
    }
  }

  /** Role provenance over whole runs: whoever comes to hold a role above plain membership got it in
      some step of the run that grants it, and did not hold it just before. */
  lemma {:induction false} RoleWasGranted(w: World, ops: seq<Op>, id: string, u: string, r: Role) returns (i: nat)
    requires RoomLaws.Possible(w, ops) && !r.Plain?
    requires !HasRole(w, id, u, r) && HasRole(Run(w, ops), id, u, r)
    ensures i < |ops| && Grants(Run(w, ops[..i]), ops[i], id, u, r)
    ensures !HasRole(Run(w, ops[..i]), id, u, r) && HasRole(Run(w, ops[..i + 1]), id, u, r)
    decreases |ops|
  {
    var w1 := Step(w, ops[0]).0;
    if HasRole(w1, id, u, r) {
      i := 0;
      if id in w.rooms {
        RisesComeFromTheOwner(w, ops[0], id, u, r);
      } else {
        NewRoomGives(w, ops[0], id, u, r);
      }
      assert ops[..1][0] == ops[0] && ops[..1][1..] == [] && Run(w1, []) == w1;
    } else {
      var k := RoleWasGranted(w1, ops[1..], id, u, r);
      i := k + 1;
      RunPrefix(w, ops, k);
      RunPrefix(w, ops, k + 1);
    }
  }

  lemma RunPrefix(w: World, ops: seq<Op>, k: nat)
    requires k < |ops|
    ensures Run(w, ops[..k + 1]) == Run(Step(w, ops[0]).0, ops[1..][..k])
  {
    assert ops[..k + 1][1..] == ops[1..][..k];
  }
}
