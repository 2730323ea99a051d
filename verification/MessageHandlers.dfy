/** The message:send socket event: validation, limiter, store and unread fan-out put together. */
module MessageHandlers {
  import opened Common
  import opened SlidingWindow
  import opened RoomServices
  import Messages
  import Rooms
  import RoomLaws

  datatype Refusal = InvalidContent | Unverified | RateLimited | NotMember

  /** A message and the moment the limiter let it through. */
  datatype Admission = Admission(id: string, user: string, at: int)

  predicate AdmittedWithin(x: Admission, user: string, lo: int) {
    x.user == user && lo <= x.at < lo + WINDOW_MS
  }

  ghost function AdmittedIn(admitted: seq<Admission>, user: string, lo: int): nat {
    Count(admitted, x => AdmittedWithin(x, user, lo))
  }

  ghost function LetThrough(log: seq<Attempt>, user: string, lo: int): nat {
    Count(log, a => AllowedIn(a, user, lo))
  }

  ghost predicate BacksMessage(s: Messages.Store, id: string, x: Admission) {
    id == x.id && id in s.msgs && s.msgs[id].senderId == x.user
  }

  /** Every stored message has its own admission, in the order they were stored. */
  ghost predicate Backed(s: Messages.Store, admitted: seq<Admission>) {
    && |s.order| == |admitted|
    && forall i | 0 <= i < |admitted| :: BacksMessage(s, s.order[i], admitted[i])
  }

  /** Every admission was paid for by an attempt the limiter allowed. */
  ghost predicate Paid(log: seq<Attempt>, admitted: seq<Admission>) {
    forall user, lo :: AdmittedIn(admitted, user, lo) <= LetThrough(log, user, lo)
  }

  lemma PaidPush(log: seq<Attempt>, admitted: seq<Admission>, a: Attempt, id: string)
    requires Paid(log, admitted)
    ensures Paid(log + [a], admitted)
    ensures a.allowed ==> Paid(log + [a], admitted + [Admission(id, a.user, a.at)])
  {
  }

  lemma BackedPush(s: Messages.Store, admitted: seq<Admission>, op: Messages.Op, x: Admission)
    requires Backed(s, admitted) && op.Create? && op.isMember && !Messages.Blank(op.content) && op.id !in s.msgs
    requires x.id == op.id && x.user == op.senderId
    ensures Backed(Messages.Apply(s, op).0, admitted + [x])
  {
    var _, _ := Messages.TrimIsTheCore(op.content);
  }

  class ChatServer {
    const limiter: MessageLimiter
    const messages: Messages.MessageService
    const rooms: RoomService
    ghost var admitted: seq<Admission>

    ghost predicate Valid()
      reads this, limiter, messages
    {
      limiter.Valid() && Backed(messages.store, admitted) && Paid(limiter.log, admitted)
    }

    constructor ()
      ensures Valid() && fresh(limiter) && fresh(messages) && fresh(rooms)
    {
      limiter := new MessageLimiter();
      messages := new Messages.MessageService();
      rooms := new RoomService();
      admitted := [];
    }

    /** `sentAt` is when the limiter runs, `createdAt` when the message is stored under its fresh id. */
    method MessageSend(user: string, username: string, verified: bool, roomId: string, content: string,
                       id: string, sentAt: int, createdAt: int) returns (r: Result<Messages.Message, Refusal>)
      requires Valid() && id !in messages.store.msgs
      requires forall a <- limiter.log :: a.at <= sentAt
      modifies this, limiter, messages, rooms
      ensures Valid()
      ensures r == Err(InvalidContent) <==> Messages.Blank(content)
      ensures r == Err(Unverified) <==> !Messages.Blank(content) && !verified
      ensures Messages.Blank(content) || !verified ==> limiter.log == old(limiter.log)
      ensures !Messages.Blank(content) && verified ==>
                limiter.log == old(limiter.log) + [Attempt(user, sentAt, r != Err(RateLimited))]
      ensures r == Err(NotMember) ==> !RoomLaws.MemberOf(old(rooms.State()), roomId, user)
      ensures r.Err? ==> messages.store == old(messages.store) && rooms.State() == old(rooms.State())
      ensures r.Ok? ==>
                && RoomLaws.MemberOf(old(rooms.State()), roomId, user)
                && messages.store == Messages.Apply(old(messages.store),
                     Messages.Create(id, roomId, user, username, content, createdAt, true)).0
                && id in messages.store.msgs && r.value == messages.store.msgs[id] && r.value.content == Messages.Trim(content)
                && rooms.State() == Rooms.Send(old(rooms.State()), roomId, user).0
    {
      var _, _ := Messages.TrimIsTheCore(content);
      if Messages.Trim(content) == [] {
        return Err(InvalidContent);
      }
      if !verified {
        return Err(Unverified);
      }
      var allowed := limiter.CheckMessageRateLimit(user, sentAt);
      PaidPush(old(limiter.log), admitted, Attempt(user, sentAt, allowed), id);
      if !allowed {
        return Err(RateLimited);
      }
      var isMember := roomId in rooms.rooms && Rooms.IsMember(rooms.rooms[roomId].members, user);
      var created := messages.CreateMessage(id, roomId, user, username, content, createdAt, isMember);
      if created.Err? {
        return Err(NotMember);
      }
      ghost var op := Messages.Create(id, roomId, user, username, content, createdAt, true);
      ghost var x := Admission(id, user, sentAt);
      BackedPush(old(messages.store), admitted, op, x);
      admitted := admitted + [x];
      var _ := rooms.SendMessage(roomId, user);
      r := Ok(created.value.message);
    }
  }

  /** The stored messages, by position, that `user` sent and that were let through in the minute. */
  ghost function StoredWithin(s: Messages.Store, admitted: seq<Admission>, user: string, lo: int): set<nat>
    requires Backed(s, admitted)
  {
    set i: nat | i < |s.order| && SentWithin(s, s.order[i], admitted[i].at, user, lo)
  }

  ghost predicate SentWithin(s: Messages.Store, id: string, at: int, user: string, lo: int) {
    id in s.msgs && s.msgs[id].senderId == user && lo <= at < lo + WINDOW_MS
  }

  /** The elements of a set of positions that lie before `n`. */
  function Before(positions: set<nat>, n: nat): set<nat> {
    set i <- positions | i < n
  }

  lemma BeforeNext(positions: set<nat>, n: nat)
    ensures |Before(positions, n + 1)| == |Before(positions, n)| + if n in positions then 1 else 0
  {
    assert Before(positions, n + 1) == Before(positions, n) + if n in positions then {n} else {};
  }

  lemma {:induction false} StoredAreCounted(s: Messages.Store, admitted: seq<Admission>, user: string, lo: int, n: nat)
    requires Backed(s, admitted) && n <= |admitted|
    ensures |Before(StoredWithin(s, admitted, user, lo), n)| == AdmittedIn(admitted[..n], user, lo)
  {
    var within := StoredWithin(s, admitted, user, lo);
    if n == 0 {
      assert Before(within, 0) == {};
    } else {
      var rest, last := admitted[..n - 1], admitted[n - 1];
      StoredAreCounted(s, admitted, user, lo, n - 1);
      BeforeNext(within, n - 1);
      assert BacksMessage(s, s.order[n - 1], last);
      CountPush(rest, last, x => AdmittedWithin(x, user, lo));
      assert admitted[..n] == rest + [last];
    }
  }

  /** At every moment at most 30 of the stored messages of one user were let through in any half-open
      minute. */
  lemma StoredMessagesAreLimited(server: ChatServer, user: string, lo: int)
    requires server.Valid()
    ensures |StoredWithin(server.messages.store, server.admitted, user, lo)| <= MESSAGE_MAX
  {
    var s, admitted := server.messages.store, server.admitted;
    StoredAreCounted(s, admitted, user, lo, |admitted|);
    assert Before(StoredWithin(s, admitted, user, lo), |admitted|) == StoredWithin(s, admitted, user, lo);
    assert admitted[..|admitted|] == admitted;
    AtMostThirtyAMinute(server.limiter.log, user, lo);
    assert AdmittedIn(admitted, user, lo) <= LetThrough(server.limiter.log, user, lo);
  }

  /** Edits, deletions and reactions leave every stored message backed by its admission. */
  lemma OtherWritesKeepBacking(s: Messages.Store, admitted: seq<Admission>, op: Messages.Op, c: Messages.Call)
    requires Backed(s, admitted) && !op.Create?
    ensures Backed(Messages.Apply(s, op).0, admitted)
    ensures Backed(Messages.Toggle(s, c).0, admitted)
  {
    forall i | 0 <= i < |admitted|
      ensures BacksMessage(Messages.Apply(s, op).0, s.order[i], admitted[i])
      ensures BacksMessage(Messages.Toggle(s, c).0, s.order[i], admitted[i])
    {
      assert BacksMessage(s, s.order[i], admitted[i]);
    }
  }
}
