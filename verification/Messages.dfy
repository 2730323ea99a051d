/** Stored messages: creation, the edit window, soft deletion and the two updates of a reaction toggle. */
module Messages {
  import opened Common

  const EDIT_WINDOW_MS := 15 * 60 * 1000

  datatype Message = Message(
    id: string, roomId: string, senderId: string, senderUsername: string, content: string,
    reactions: map<string, seq<string>>, createdAt: int, editedAt: Option<int>, deletedAt: Option<int>)
  {
    /** The users who reacted with `emoji`. */
    function Reactors(emoji: string): seq<string> {
      if emoji in reactions then reactions[emoji] else []
    }
  }

  datatype Error = NotMember | ContentRequired | EditNotAllowed | DeleteNotAllowed | InvalidEmoji | MessageNotFound

  predicate IsSpace(c: char) {
    || '\t' <= c <= '\r' || c == ' ' || c == '\U{A0}' || c == '\U{1680}' || '\U{2000}' <= c <= '\U{200A}'
    || c == '\U{2028}' || c == '\U{2029}' || c == '\U{202F}' || c == '\U{205F}' || c == '\U{3000}' || c == '\U{FEFF}'
  }

  function TrimLeft(s: string): string {
    if s != [] && IsSpace(s[0]) then TrimLeft(s[1..]) else s
  }

  function TrimRight(s: string): string {
    if s != [] && IsSpace(s[|s| - 1]) then TrimRight(s[..|s| - 1]) else s
  }

  function Trim(s: string): string {
    TrimRight(TrimLeft(s))
  }

  predicate Blank(s: string) {
    forall c <- s :: IsSpace(c)
  }

  predicate Tight(s: string) {
    s == [] || (!IsSpace(s[0]) && !IsSpace(s[|s| - 1]))
  }

  lemma {:induction false} TrimLeftCuts(s: string) returns (lo: nat)
    ensures lo <= |s| && TrimLeft(s) == s[lo..] && Blank(s[..lo])
    ensures lo < |s| ==> !IsSpace(s[lo])
  {
    lo := 0;
    if s != [] && IsSpace(s[0]) {
      var inner := TrimLeftCuts(s[1..]);
      lo := inner + 1;
      assert s[..lo] == [s[0]] + s[1..][..inner];
    }
  }

  lemma {:induction false} TrimRightCuts(s: string) returns (hi: nat)
    ensures hi <= |s| && TrimRight(s) == s[..hi] && Blank(s[hi..])
    ensures hi > 0 ==> !IsSpace(s[hi - 1])
  {
    hi := |s|;
    if s != [] && IsSpace(s[|s| - 1]) {
      var front := s[..|s| - 1];
      hi := TrimRightCuts(front);
      assert s[hi..] == front[hi..] + [s[|s| - 1]];
      assert s[..hi] == front[..hi];
    }
  }

  /** Trimming cuts off all of the blank ends and nothing else; a blank text trims to nothing. */
  lemma TrimIsTheCore(s: string) returns (lo: nat, hi: nat)
    ensures lo <= hi <= |s| && Trim(s) == s[lo..hi]
    ensures Blank(s[..lo]) && Blank(s[hi..]) && Tight(Trim(s))
    ensures Trim(s) == [] <==> Blank(s)
  {
    lo := TrimLeftCuts(s);
    var mid := TrimRightCuts(s[lo..]);
    hi := lo + mid;
    assert s[lo..][..mid] == s[lo..hi] && s[lo..][mid..] == s[hi..];
    if lo == hi {
      assert s == s[..lo] + s[hi..];
    } else {
      assert s[lo] in s;
      assert s[lo..hi][mid - 1] == s[lo..][mid - 1];
    }
  }

  /** What clients see of a message: the content of a deleted one is hidden, its reactions are not. */
  function ToMessageResponse(m: Message): Message {
    m.(content := if m.deletedAt.Some? then "[deleted]" else m.content)
  }

  /** The collection: the messages by id, and the ids in insertion order. */
  datatype Store = Store(msgs: map<string, Message>, order: seq<string>)

  /** The messages some update filtered on `deletedAt: null` can still reach. */
  predicate Reachable(s: Store, id: string) {
    id in s.msgs && s.msgs[id].deletedAt.None?
  }

  /** One toggle: who, on which message, with which emoji. */
  datatype Call = Call(messageId: string, userId: string, emoji: string)

  /** The message as clients see it, or what is left to say of one just deleted. */
  datatype Response = Shown(message: Message) | Removed(id: string, roomId: string)

  type Reply = Result<Response, Error>

  /** The first update: add the user to the emoji's list unless already there. */
  function AddStep(s: Store, c: Call): (Store, Option<Message>) {
    if Reachable(s, c.messageId) && c.userId !in s.msgs[c.messageId].Reactors(c.emoji) then
      var m := s.msgs[c.messageId];
      var m' := m.(reactions := m.reactions[c.emoji := m.Reactors(c.emoji) + [c.userId]]);
      (s.(msgs := s.msgs[c.messageId := m']), Some(ToMessageResponse(m')))
    else (s, None)
  }

  function Without(users: seq<string>, u: string): (r: seq<string>)
    ensures forall v :: v in r <==> v in users && v != u
    ensures u !in users ==> r == users
  {
    if users == [] then []
    else
      var rest := Without(users[..|users| - 1], u);
      if users[|users| - 1] == u then rest else rest + [users[|users| - 1]]
  }

  /** The second update: pull the user from the emoji's list.  A missing list stays missing, and a
      list that becomes empty stays as a key. */
  function PullStep(s: Store, c: Call): (Store, Reply) {
    if Reachable(s, c.messageId) then
      var m := s.msgs[c.messageId];
      var m' := if c.emoji in m.reactions
                then m.(reactions := m.reactions[c.emoji := Without(m.reactions[c.emoji], c.userId)]) else m;
      (s.(msgs := s.msgs[c.messageId := m']), Ok(Shown(ToMessageResponse(m'))))
    else (s, Err(MessageNotFound))
  }

  /** The whole toggle, as a single caller sees it. */
  function Toggle(s: Store, c: Call): (Store, Reply) {
    var (s', added) := AddStep(s, c);
    if added.Some? then (s', Ok(Shown(added.value))) else PullStep(s, c)
  }

  /** Writes other than reactions.  `isMember` is the answer of the membership query. */
  datatype Op =
    | Create(id: string, roomId: string, senderId: string, senderUsername: string, content: string,
             at: int, isMember: bool)
    | Edit(id: string, userId: string, content: string, at: int)
    | Delete(id: string, userId: string, at: int)

  /** The schema requires a content, which creation and edits both trim; only creation validates it. */
  function Apply(s: Store, op: Op): (Store, Reply) {
    match op
    case Create(id, roomId, senderId, senderUsername, content, at, isMember) =>
      if !isMember then (s, Err(NotMember))
      else if Trim(content) == [] then (s, Err(ContentRequired))
      else
        var m := Message(id, roomId, senderId, senderUsername, Trim(content), map[], at, None, None);
        (Store(s.msgs[id := m], s.order + [id]), Ok(Shown(ToMessageResponse(m))))
    case Edit(id, userId, content, at) =>
      if Reachable(s, id) && s.msgs[id].senderId == userId && s.msgs[id].createdAt >= at - EDIT_WINDOW_MS then
        var m := s.msgs[id].(content := Trim(content), editedAt := Some(at));
        (s.(msgs := s.msgs[id := m]), Ok(Shown(ToMessageResponse(m))))
      else (s, Err(EditNotAllowed))
    case Delete(id, userId, at) =>
      if Reachable(s, id) && s.msgs[id].senderId == userId then
        var m := s.msgs[id].(deletedAt := Some(at));
        (s.(msgs := s.msgs[id := m]), Ok(Removed(m.id, m.roomId)))
      else (s, Err(DeleteNotAllowed))
  }

  /** Ids are the store's own, inserted once, and creation times follow a nondecreasing clock. */
  ghost predicate OrderOk(s: Store) {
    && (forall id <- s.msgs :: s.msgs[id].id == id)
    && (forall id :: id in s.order <==> id in s.msgs)
    && (forall i, j :: 0 <= i < j < |s.order| ==> s.order[i] != s.order[j])
    && (forall i, j :: 0 <= i < j < |s.order| ==> s.msgs[s.order[i]].createdAt <= s.msgs[s.order[j]].createdAt)
  }

  /** No user is listed twice under an emoji. */
  ghost predicate ListsOk(s: Store) {
    forall id <- s.msgs, e: string :: NoDup(s.msgs[id].Reactors(e))
  }

  ghost predicate NoDup(users: seq<string>) {
    forall i, j :: 0 <= i < j < |users| ==> users[i] != users[j]
  }

  /** A fresh id, and a time no earlier than any stored one. */
  ghost predicate OpOk(s: Store, op: Op) {
    op.Create? ==> op.id !in s.msgs && forall id <- s.msgs :: s.msgs[id].createdAt <= op.at
  }

  class MessageService {
    var store: Store

    constructor ()
      ensures store == Store(map[], []) && OrderOk(store) && ListsOk(store)
    {
      store := Store(map[], []);
    }

    method CreateMessage(id: string, roomId: string, senderId: string, senderUsername: string,
                         content: string, at: int, isMember: bool) returns (r: Reply)
      modifies this
      ensures (store, r) == Apply(old(store), Create(id, roomId, senderId, senderUsername, content, at, isMember))
    {
      if !isMember {
        return Err(NotMember);
      }
      var text := Trim(content);
      if text == [] {
        return Err(ContentRequired);
      }
      var m := Message(id, roomId, senderId, senderUsername, text, map[], at, None, None);
      store := Store(store.msgs[id := m], store.order + [id]);
      r := Ok(Shown(ToMessageResponse(m)));
    }

    method EditMessage(messageId: string, userId: string, content: string, now: int) returns (r: Reply)
      modifies this
      ensures (store, r) == Apply(old(store), Edit(messageId, userId, content, now))
    {
      var windowStart := now - EDIT_WINDOW_MS;
      if Reachable(store, messageId) && store.msgs[messageId].senderId == userId
         && store.msgs[messageId].createdAt >= windowStart {
        var m := store.msgs[messageId].(content := Trim(content), editedAt := Some(now));
        store := store.(msgs := store.msgs[messageId := m]);
        r := Ok(Shown(ToMessageResponse(m)));
      } else {
        r := Err(EditNotAllowed);
      }
    }

    method DeleteMessage(messageId: string, userId: string, now: int) returns (r: Reply)
      modifies this
      ensures (store, r) == Apply(old(store), Delete(messageId, userId, now))
    {
      if Reachable(store, messageId) && store.msgs[messageId].senderId == userId {
        var m := store.msgs[messageId].(deletedAt := Some(now));
        store := store.(msgs := store.msgs[messageId := m]);
        r := Ok(Removed(m.id, m.roomId));
      } else {
        r := Err(DeleteNotAllowed);
      }
    }

    /** Validation by code points, then the two round-trips, here with nothing in between. */
    method ToggleReaction(messageId: string, userId: string, emoji: string) returns (r: Reply)
      modifies this
      ensures (store, r) == if 1 <= |emoji| <= 4 then Toggle(old(store), Call(messageId, userId, emoji))
                            else (old(store), Err(InvalidEmoji))
    {
      if |emoji| == 0 || |emoji| > 4 {
        return Err(InvalidEmoji);
      }
      var c := Call(messageId, userId, emoji);
      var (afterAdd, added) := AddStep(store, c);
      store := afterAdd;
      if added.Some? {
        return Ok(Shown(added.value));
      }
      var (afterPull, reply) := PullStep(store, c);
      store := afterPull;
      r := reply;
    }
  }
}
