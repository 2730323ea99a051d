/** Cursor pagination of a room's history, and the walk a client makes by following nextCursor. */
module Pagination {
  import opened Common
  import opened Messages
  import opened Reactions

  const DEFAULT_LIMIT := 50
  const MAX_LIMIT := 100

  datatype PageError = RoomNotFound | InvalidCursor

  datatype Page = Page(items: seq<Message>, nextCursor: Option<int>, hasMore: bool)

  /** The `before` parameter: missing, a timestamp, or something that is not a date. */
  datatype Before = Absent | At(time: int) | Malformed

  /** `parseInt(limit) || 50`, clamped to 1..100; `None` when the limit is missing or not a number. */
  function PageSize(limit: Option<int>): (n: nat)
    ensures 1 <= n <= MAX_LIMIT
  {
    var asked := if limit.Some? && limit.value != 0 then limit.value else DEFAULT_LIMIT;
    var atLeastOne := if asked < 1 then 1 else asked;
    if atLeastOne > MAX_LIMIT then MAX_LIMIT else atLeastOne
  }

  /** A room's messages as the store lists them: newest first, the later insertion first in a tie. */
  function Listing(s: Store, roomId: string): seq<Message> {
    ListIds(s.msgs, s.order, roomId)
  }

  function ListIds(msgs: map<string, Message>, order: seq<string>, roomId: string): seq<Message> {
    if order == [] then []
    else
      var id := order[|order| - 1];
      (if id in msgs && msgs[id].roomId == roomId then [msgs[id]] else [])
      + ListIds(msgs, order[..|order| - 1], roomId)
  }

  /** The messages created strictly before the cursor. */
  function Older(d: seq<Message>, cursor: int): (r: seq<Message>)
    ensures |r| <= |d|
  {
    if d == [] then []
    else if d[0].createdAt < cursor then [d[0]] + Older(d[1..], cursor)
    else Older(d[1..], cursor)
  }

  function Filtered(d: seq<Message>, cursor: Option<int>): seq<Message> {
    if cursor.Some? then Older(d, cursor.value) else d
  }

  function Show(d: seq<Message>): (r: seq<Message>)
    ensures |r| == |d| && forall i :: 0 <= i < |d| ==> r[i] == ToMessageResponse(d[i])
  {
    seq(|d|, i requires 0 <= i < |d| => ToMessageResponse(d[i]))
  }

  /** One page of the listing `d`: n + 1 documents are fetched to see whether there are more than n. */
  function PageOf(d: seq<Message>, cursor: Option<int>, n: nat): Page
    requires n >= 1
  {
    var matching := Filtered(d, cursor);
    var docs := if |matching| > n + 1 then matching[..n + 1] else matching;
    var hasMore := |docs| > n;
    var items := if hasMore then docs[..n] else docs;
    Page(Show(items), if hasMore then Some(items[|items| - 1].createdAt) else None, hasMore)
  }

  function GetMessageHistory(s: Store, rooms: set<string>, roomId: string, before: Before, limit: Option<int>)
    : Result<Page, PageError>
  {
    if roomId !in rooms then Err(RoomNotFound)
    else match before
      case Malformed => Err(InvalidCursor)
      case At(t) => Ok(PageOf(Listing(s, roomId), Some(t), PageSize(limit)))
      case Absent => Ok(PageOf(Listing(s, roomId), None, PageSize(limit)))
  }

  ghost predicate Descending(d: seq<Message>) {
    forall i, j :: 0 <= i < j < |d| ==> d[i].createdAt >= d[j].createdAt
  }

  /** What a client collects by following nextCursor from `cursor`, and in how many requests. */
  function Follow(d: seq<Message>, cursor: Option<int>, n: nat): (w: (seq<Message>, nat))
    requires n >= 1
    decreases |Filtered(d, cursor)|
  {
    var page := PageOf(d, cursor, n);
    if page.nextCursor.None? then (page.items, 1)
    else
      NextIsOlder(d, cursor, n);
      var later := Follow(d, page.nextCursor, n);
      (page.items + later.0, 1 + later.1)
  }

  lemma {:induction false} OlderDrops(d: seq<Message>, cursor: int, i: nat)
    requires i < |d| && d[i].createdAt >= cursor
    ensures |Older(d, cursor)| < |d|
  {
    if i > 0 {
      OlderDrops(d[1..], cursor, i - 1);
    }
  }

  lemma {:induction false} OlderTwice(d: seq<Message>, early: int, late: int)
    requires early <= late
    ensures Older(Older(d, late), early) == Older(d, early)
  {
    if d != [] {
      OlderTwice(d[1..], early, late);
      if d[0].createdAt < late {
        assert ([d[0]] + Older(d[1..], late))[1..] == Older(d[1..], late);
      }
    }
  }

  lemma {:induction false} OlderAreOlder(d: seq<Message>, cursor: int)
    ensures forall m <- Older(d, cursor) :: m.createdAt < cursor && m in d
  {
    if d != [] {
      OlderAreOlder(d[1..], cursor);
    }
  }

  /** The next page's cursor is the time of a fetched message, which that page therefore leaves out. */
  lemma NextIsOlder(d: seq<Message>, cursor: Option<int>, n: nat)
    requires n >= 1 && PageOf(d, cursor, n).nextCursor.Some?
    ensures var next := PageOf(d, cursor, n).nextCursor;
            && Filtered(d, next) == Older(Filtered(d, cursor), next.value)
            && |Filtered(d, next)| < |Filtered(d, cursor)|
  {
    var next := PageOf(d, cursor, n).nextCursor.value;
    var matching := Filtered(d, cursor);
    assert next == matching[n - 1].createdAt;
    OlderDrops(matching, next, n - 1);
    if cursor.Some? {
      OlderAreOlder(d, cursor.value);
      assert matching[n - 1] in matching;
      OlderTwice(d, next, cursor.value);
    }
  }

  /** In a descending listing the older messages are a suffix, and the rest are not older. */
  lemma {:induction false} OlderIsSuffix(d: seq<Message>, cursor: int)
    requires Descending(d)
    ensures Older(d, cursor) == d[|d| - |Older(d, cursor)|..]
    ensures forall i :: 0 <= i < |d| - |Older(d, cursor)| ==> d[i].createdAt >= cursor
  {
    if d != [] {
      OlderIsSuffix(d[1..], cursor);
      if d[0].createdAt < cursor {
        var k := |d[1..]| - |Older(d[1..], cursor)|;
        assert k == 0;
      }
    }
  }

  /** A position where one page of n ends and the next begins. */
  predicate PageEnd(i: int, n: nat)
    requires n >= 1
  {
    i > 0 && i % n == 0
  }

  /** Creation times strictly drop across every page end. */
  ghost predicate NoTieAcrossPages(d: seq<Message>, n: nat)
    requires n >= 1
  {
    forall i :: PageEnd(i, n) && i < |d| ==> d[i - 1].createdAt > d[i].createdAt
  }

  lemma PageEndShift(i: int, n: nat)
    requires n >= 1
    ensures PageEnd(n, n)
    ensures i > 0 ==> (PageEnd(i + n, n) <==> PageEnd(i, n))
    ensures PageEnd(i, n) ==> i >= n
  {
    ModShift(0, n);
    ModShift(i, n);
  }

  lemma ShortHasNoTie(d: seq<Message>, n: nat)
    requires n >= 1 && |d| <= n
    ensures NoTieAcrossPages(d, n)
  {
  }

  lemma NoTieStep(d: seq<Message>, n: nat)
    requires n >= 1 && n < |d|
    ensures NoTieAcrossPages(d, n) <==> d[n - 1].createdAt > d[n].createdAt && NoTieAcrossPages(d[n..], n)
  {
    PageEndShift(n, n);
    if NoTieAcrossPages(d, n) {
      forall i | PageEnd(i, n) && i < |d[n..]|
        ensures d[n..][i - 1].createdAt > d[n..][i].createdAt
      {
        PageEndShift(i, n);
        assert PageEnd(i + n, n);
      }
    }
    if d[n - 1].createdAt > d[n].createdAt && NoTieAcrossPages(d[n..], n) {
      forall i | PageEnd(i, n) && i < |d|
        ensures d[i - 1].createdAt > d[i].createdAt
      {
        PageEndShift(i, n);
        if i > n {
          PageEndShift(i - n, n);
          assert d[n..][i - n] == d[i] && d[n..][i - n - 1] == d[i - 1];
        }
      }
    }
  }

  /** How many pages of n hold the messages; one request is made even when there are none. */
  function PagesFor(count: nat, n: nat): int
    requires n >= 1
  {
    if count == 0 then 1 else (count - 1) / n + 1
  }

  lemma PagesMono(x: nat, y: nat, n: nat)
    requires n >= 1 && x <= y
    ensures 1 <= PagesFor(x, n) <= PagesFor(y, n)
  {
    if y > 0 {
      DivMono(0, y - 1, n);
    }
    if x > 0 {
      DivMono(0, x - 1, n);
      DivMono(x - 1, y - 1, n);
    }
  }

  lemma OnePage(count: nat, n: nat)
    requires n >= 1 && count <= n
    ensures PagesFor(count, n) == 1
  {
  }

  lemma OnePageMore(count: nat, n: nat)
    requires n >= 1 && count > n
    ensures PagesFor(count, n) == 1 + PagesFor(count - n, n)
  {
    DivShift(count - 1 - n, n);
  }

  /** A full page and whatever is left after it. */
  lemma PagesStep(left: nat, count: nat, n: nat)
    requires n >= 1 && count > n && left <= count - n
    ensures 1 + PagesFor(left, n) <= PagesFor(count, n)
    ensures left == count - n ==> 1 + PagesFor(left, n) == PagesFor(count, n)
  {
    OnePageMore(count, n);
    PagesMono(left, count - n, n);
  }

  /** What a full page leaves for the next ones: a suffix, and all of the rest iff no tie is cut. */
  lemma RestAfterPage(d: seq<Message>, n: nat)
    requires 1 <= n < |d| && Descending(d)
    ensures var rest := Older(d, d[n - 1].createdAt);
            && |rest| <= |d| - n && rest == d[|d| - |rest|..]
            && (|rest| == |d| - n <==> d[n - 1].createdAt > d[n].createdAt)
  {
    var next := d[n - 1].createdAt;
    var rest := Older(d, next);
    OlderIsSuffix(d, next);
    OlderAreOlder(d, next);
    var k := |d| - |rest|;
    if k == n {
      assert d[n] == rest[0];
    }
  }

  /** A page holds the next n messages; when there are more it names the time of its last. */
  lemma PageShape(d: seq<Message>, cursor: Option<int>, n: nat)
    requires n >= 1
    ensures var o := Filtered(d, cursor);
            PageOf(d, cursor, n) == if |o| <= n then Page(Show(o), None, false)
                                    else Page(Show(o[..n]), Some(o[n - 1].createdAt), true)
  {
  }

  /** Prefixing the n items of a page to what the rest of the walk collects. */
  lemma PrefixPage(o: seq<Message>, rest: seq<Message>, tail: seq<Message>, n: nat)
    requires n <= |o| && |tail| <= |rest| <= |o| - n && rest == o[|o| - |rest|..]
    ensures Show(o[..n]) + tail == Show(o) <==> |rest| == |o| - n && tail == Show(rest)
  {
  }

  lemma RestDescends(o: seq<Message>, rest: seq<Message>)
    requires Descending(o) && |rest| <= |o| && rest == o[|o| - |rest|..]
    ensures Descending(rest)
  {
  }

  /** The same walk on the list of messages still to come. */
  ghost function Walk(o: seq<Message>, n: nat): (w: (seq<Message>, nat))
    requires n >= 1
    decreases |o|
  {
    if |o| <= n then (Show(o), 1)
    else
      OlderDrops(o, o[n - 1].createdAt, n - 1);
      var later := Walk(Older(o, o[n - 1].createdAt), n);
      (Show(o[..n]) + later.0, 1 + later.1)
  }

  lemma FollowStep(d: seq<Message>, cursor: Option<int>, n: nat, items: seq<Message>, next: int)
    requires n >= 1 && PageOf(d, cursor, n) == Page(items, Some(next), true)
    ensures var later := Follow(d, Some(next), n);
            Follow(d, cursor, n) == (items + later.0, 1 + later.1)
  {
  }

  lemma WalkStep(o: seq<Message>, n: nat)
    requires 1 <= n < |o|
    ensures var rest := Older(o, o[n - 1].createdAt);
            && |rest| < |o|
            && Walk(o, n) == (Show(o[..n]) + Walk(rest, n).0, 1 + Walk(rest, n).1)
  {
    OlderDrops(o, o[n - 1].createdAt, n - 1);
  }

  lemma {:induction false} FollowIsWalk(d: seq<Message>, cursor: Option<int>, n: nat)
    requires n >= 1
    ensures Follow(d, cursor, n) == Walk(Filtered(d, cursor), n)
    decreases |Filtered(d, cursor)|
  {
    var o := Filtered(d, cursor);
    PageShape(d, cursor, n);
    if |o| > n {
      var next := o[n - 1].createdAt;
      NextIsOlder(d, cursor, n);
      FollowIsWalk(d, Some(next), n);
      FollowStep(d, cursor, n, Show(o[..n]), next);
      WalkStep(o, n);
    }
  }

  /** The walk collects no more than there is, and everything iff no tie straddles a page end. */
  lemma {:induction false} WalkItems(o: seq<Message>, n: nat)
    requires n >= 1 && Descending(o)
    ensures |Walk(o, n).0| <= |o|
    ensures Walk(o, n).0 == Show(o) <==> NoTieAcrossPages(o, n)
    decreases |o|
  {
    if |o| <= n {
      ShortHasNoTie(o, n);
    } else {
      var rest := Older(o, o[n - 1].createdAt);
      RestAfterPage(o, n);
      RestDescends(o, rest);
      WalkItems(rest, n);
      NoTieStep(o, n);
      PrefixPage(o, rest, Walk(rest, n).0, n);
    }
  }

  /** It makes no more requests than there are pages, and exactly that many when it is complete. */
  lemma {:induction false} WalkRequests(o: seq<Message>, n: nat)
    requires n >= 1 && Descending(o)
    ensures Walk(o, n).1 <= PagesFor(|o|, n)
    ensures NoTieAcrossPages(o, n) ==> Walk(o, n).1 == PagesFor(|o|, n)
    decreases |o|
  {
    if |o| <= n {
      OnePage(|o|, n);
    } else {
      var rest := Older(o, o[n - 1].createdAt);
      RestAfterPage(o, n);
      RestDescends(o, rest);
      WalkRequests(rest, n);
      WalkStep(o, n);
      NoTieStep(o, n);
      PagesStep(|rest|, |o|, n);
    }
  }

  ghost predicate DistinctIds(d: seq<Message>) {
    forall i, j :: 0 <= i < j < |d| ==> d[i].id != d[j].id
  }

  function Ids(d: seq<Message>): set<string> {
    set m <- d :: m.id
  }

  lemma DistinctJoin(a: seq<Message>, b: seq<Message>)
    requires DistinctIds(a) && DistinctIds(b) && Ids(a) !! Ids(b)
    ensures DistinctIds(a + b) && Ids(a + b) == Ids(a) + Ids(b)
  {
    forall i, j | 0 <= i < j < |a + b|
      ensures (a + b)[i].id != (a + b)[j].id
    {
      if i < |a| <= j {
        assert a[i].id in Ids(a) && b[j - |a|].id in Ids(b);
      }
    }
    assert forall m :: m in a + b <==> m in a || m in b;
  }

  lemma DistinctPart(d: seq<Message>, lo: nat, hi: nat)
    requires lo <= hi <= |d| && DistinctIds(d)
    ensures DistinctIds(d[lo..hi]) && Ids(d[lo..hi]) <= Ids(d)
    ensures Ids(d[..lo]) !! Ids(d[lo..hi])
  {
  }

  lemma ShowIds(d: seq<Message>)
    ensures Ids(Show(d)) == Ids(d) && (DistinctIds(d) ==> DistinctIds(Show(d)))
  {
  }

  /** With ties or without, no message is ever shown twice. */
  lemma {:induction false} WalkNeverRepeats(o: seq<Message>, n: nat)
    requires n >= 1 && Descending(o) && DistinctIds(o)
    ensures DistinctIds(Walk(o, n).0) && Ids(Walk(o, n).0) <= Ids(o)
    decreases |o|
  {
    if |o| <= n {
      ShowIds(o);
    } else {
      var rest := Older(o, o[n - 1].createdAt);
      RestAfterPage(o, n);
      RestDescends(o, rest);
      var k := |o| - |rest|;
      assert o[k..|o|] == o[k..] == rest;
      DistinctPart(o, k, |o|);
      WalkNeverRepeats(rest, n);
      WalkStep(o, n);
      DistinctPart(o, 0, n);
      assert o[0..n] == o[..n];
      assert Ids(o[..n]) <= Ids(o[..k]);
      ShowIds(o[..n]);
      DistinctJoin(Show(o[..n]), Walk(rest, n).0);
    }
  }

  /** What identifies a message and its place. */
  function Keys(d: seq<Message>): (r: seq<(string, int)>)
    ensures |r| == |d| && forall i :: 0 <= i < |d| ==> r[i] == (d[i].id, d[i].createdAt)
  {
    seq(|d|, i requires 0 <= i < |d| => (d[i].id, d[i].createdAt))
  }

  lemma KeysJoin(a: seq<Message>, b: seq<Message>)
    ensures Keys(a + b) == Keys(a) + Keys(b)
  {
  }

  lemma KeysShown(d: seq<Message>)
    ensures Keys(Show(d)) == Keys(d)
  {
  }

  lemma KeysPart(d: seq<Message>, d': seq<Message>, k: nat)
    requires Keys(d) == Keys(d') && k <= |d|
    ensures |d'| == |d| && Keys(d[..k]) == Keys(d'[..k]) && Keys(d[k..]) == Keys(d'[k..])
    ensures k < |d| ==> d[k].id == d'[k].id && d[k].createdAt == d'[k].createdAt
  {
  }

  lemma {:induction false} OlderByKeys(d: seq<Message>, d': seq<Message>, cursor: int)
    requires Keys(d) == Keys(d')
    ensures Keys(Older(d, cursor)) == Keys(Older(d', cursor))
  {
    KeysPart(d, d', 0);
    if d != [] {
      KeysPart(d, d', 1);
      OlderByKeys(d[1..], d'[1..], cursor);
      KeysJoin([d[0]], Older(d[1..], cursor));
      KeysJoin([d'[0]], Older(d'[1..], cursor));
      assert Keys([d[0]]) == Keys([d'[0]]);
    }
  }

  /** The ids a client sees, and their order, depend only on the ids and times still to come. */
  lemma {:induction false} WalkByKeys(o: seq<Message>, o': seq<Message>, n: nat)
    requires n >= 1 && Keys(o) == Keys(o')
    ensures Keys(Walk(o, n).0) == Keys(Walk(o', n).0)
    decreases |o|
  {
    KeysPart(o, o', 0);
    if |o| <= n {
      KeysShown(o);
      KeysShown(o');
    } else {
      KeysPart(o, o', n - 1);
      KeysPart(o, o', n);
      var c := o[n - 1].createdAt;
      var rest, rest' := Older(o, c), Older(o', c);
      OlderByKeys(o, o', c);
      WalkStep(o, n);
      WalkStep(o', n);
      WalkByKeys(rest, rest', n);
      KeysShown(o[..n]);
      KeysShown(o'[..n]);
      KeysJoin(Show(o[..n]), Walk(rest, n).0);
      KeysJoin(Show(o'[..n]), Walk(rest', n).0);
    }
  }

  /** The part of a store's order that matters to a listing. */
  ghost predicate Chronological(msgs: map<string, Message>, order: seq<string>) {
    && (forall id <- order :: id in msgs && msgs[id].id == id)
    && (forall i, j :: 0 <= i < j < |order| ==> order[i] != order[j])
    && (forall i, j :: 0 <= i < j < |order| ==> msgs[order[i]].createdAt <= msgs[order[j]].createdAt)
  }

  /** The listing has exactly the room's messages. */
  lemma {:induction false} ListingIsTheRoom(msgs: map<string, Message>, order: seq<string>, roomId: string, m: Message)
    requires Chronological(msgs, order)
    ensures m in ListIds(msgs, order, roomId) <==> m.id in order && msgs[m.id] == m && m.roomId == roomId
  {
    if order != [] {
      var rest, last := order[..|order| - 1], order[|order| - 1];
      ListingIsTheRoom(msgs, rest, roomId, m);
      assert order == rest + [last];
    }
  }

  /** Each once, newest first. */
  lemma {:induction false} ListingDescends(msgs: map<string, Message>, order: seq<string>, roomId: string)
    requires Chronological(msgs, order)
    ensures Descending(ListIds(msgs, order, roomId)) && DistinctIds(ListIds(msgs, order, roomId))
  {
    if order != [] {
      var rest, last := order[..|order| - 1], order[|order| - 1];
      ListingDescends(msgs, rest, roomId);
      var older := ListIds(msgs, rest, roomId);
      forall m <- older
        ensures m.createdAt <= msgs[last].createdAt && m.id != last
      {
        ListingIsTheRoom(msgs, rest, roomId, m);
        var k :| 0 <= k < |rest| && rest[k] == m.id;
        assert order[k] == rest[k];
      }
    }
  }

  /** The stored messages of the room a request is about. */
  ghost predicate Wanted(s: Store, roomId: string, before: Before, m: Message) {
    m.id in s.msgs && s.msgs[m.id] == m && m.roomId == roomId && (before.At? ==> m.createdAt < before.time)
  }

  function CursorOf(before: Before): Option<int> {
    if before.At? then Some(before.time) else None
  }

  lemma {:induction false} OlderMember(d: seq<Message>, cursor: int, m: Message)
    ensures m in Older(d, cursor) <==> m in d && m.createdAt < cursor
  {
    if d != [] {
      OlderMember(d[1..], cursor, m);
    }
  }

  lemma FilteredIsWanted(s: Store, roomId: string, before: Before, m: Message)
    requires OrderOk(s)
    ensures m in Filtered(Listing(s, roomId), CursorOf(before)) <==> Wanted(s, roomId, before, m)
  {
    ListingIsTheRoom(s.msgs, s.order, roomId, m);
    if before.At? {
      OlderMember(Listing(s, roomId), before.time, m);
    }
  }

  lemma FilteredDescends(s: Store, roomId: string, before: Before)
    requires OrderOk(s)
    ensures var o := Filtered(Listing(s, roomId), CursorOf(before)); Descending(o) && DistinctIds(o)
  {
    var d := Listing(s, roomId);
    ListingDescends(s.msgs, s.order, roomId);
    if before.At? {
      OlderIsSuffix(d, before.time);
      DistinctPart(d, |d| - |Older(d, before.time)|, |d|);
    }
  }

  /** What one request gets: the errors, and else the newest messages before the cursor, newest first,
      at most as many as the page size, with a cursor exactly when some are left. */
  lemma HistoryPage(s: Store, rooms: set<string>, roomId: string, before: Before, limit: Option<int>)
    requires OrderOk(s)
    ensures var r := GetMessageHistory(s, rooms, roomId, before, limit);
            && (r == Err(RoomNotFound) <==> roomId !in rooms)
            && (r == Err(InvalidCursor) <==> roomId in rooms && before.Malformed?)
            && (r.Ok? ==> PageRight(s, roomId, before, PageSize(limit), r.value))
  {
    if roomId in rooms && !before.Malformed? {
      PageIsRight(s, roomId, before, PageSize(limit));
    }
  }

  ghost predicate OnPage(page: Page, m: Message) {
    ToMessageResponse(m) in page.items
  }

  ghost predicate Shows(s: Store, roomId: string, before: Before, x: Message) {
    x.id in s.msgs && Wanted(s, roomId, before, s.msgs[x.id]) && x == ToMessageResponse(s.msgs[x.id])
  }

  ghost predicate LeftFor(page: Page, m: Message) {
    page.hasMore && forall x <- page.items :: x.createdAt >= m.createdAt
  }

  ghost predicate PageRight(s: Store, roomId: string, before: Before, n: nat, page: Page) {
    && |page.items| <= n && Descending(page.items)
    && (forall x <- page.items :: Shows(s, roomId, before, x))
    && (forall m | Wanted(s, roomId, before, m) && !OnPage(page, m) :: LeftFor(page, m))
    && (page.hasMore ==>
          |page.items| == n && exists m :: Wanted(s, roomId, before, m) && !OnPage(page, m))
    && page.nextCursor == (if page.hasMore && n > 0 then Some(page.items[n - 1].createdAt) else None)
  }

  /** The first k of a descending listing, against the rest of it. */
  lemma TopOfListing(o: seq<Message>, k: nat, page: Page, m: Message)
    requires k <= |o| && page.items == Show(o[..k]) && Descending(o) && DistinctIds(o) && m in o
    ensures OnPage(page, m) <==> m in o[..k]
    ensures m !in o[..k] ==> k < |o| && forall x <- page.items :: x.createdAt >= m.createdAt
  {
    var i :| 0 <= i < |o| && o[i] == m;
    if i < k {
      assert o[..k][i] == m && page.items[i] == ToMessageResponse(m);
    } else {
      forall j | 0 <= j < k
        ensures page.items[j].createdAt >= m.createdAt && page.items[j] != ToMessageResponse(m)
      {
        assert o[j].id != o[i].id && page.items[j] == ToMessageResponse(o[j]);
      }
    }
  }

  lemma TopIsWanted(s: Store, roomId: string, before: Before, o: seq<Message>, k: nat, x: Message)
    requires OrderOk(s) && o == Filtered(Listing(s, roomId), CursorOf(before))
    requires k <= |o| && x in Show(o[..k])
    ensures Shows(s, roomId, before, x)
  {
    var i :| 0 <= i < k && Show(o[..k])[i] == x;
    assert x == ToMessageResponse(o[i]) && o[i] in o;
    FilteredIsWanted(s, roomId, before, o[i]);
  }

  lemma TopDescends(s: Store, roomId: string, before: Before, o: seq<Message>, k: nat)
    requires OrderOk(s) && o == Filtered(Listing(s, roomId), CursorOf(before)) && k <= |o|
    ensures Descending(Show(o[..k]))
  {
    FilteredDescends(s, roomId, before);
  }

  lemma MissingIsLeft(s: Store, roomId: string, before: Before, o: seq<Message>, k: nat, page: Page, m: Message)
    requires OrderOk(s) && o == Filtered(Listing(s, roomId), CursorOf(before))
    requires k <= |o| && page.items == Show(o[..k]) && (page.hasMore <==> k < |o|)
    requires Wanted(s, roomId, before, m) && !OnPage(page, m)
    ensures LeftFor(page, m)
  {
    FilteredIsWanted(s, roomId, before, m);
    FilteredDescends(s, roomId, before);
    TopOfListing(o, k, page, m);
  }

  lemma NextIsLeft(s: Store, roomId: string, before: Before, o: seq<Message>, k: nat, page: Page)
    requires OrderOk(s) && o == Filtered(Listing(s, roomId), CursorOf(before))
    requires k < |o| && page.items == Show(o[..k])
    ensures Wanted(s, roomId, before, o[k]) && !OnPage(page, o[k])
  {
    FilteredIsWanted(s, roomId, before, o[k]);
    FilteredDescends(s, roomId, before);
    TopOfListing(o, k, page, o[k]);
  }

  lemma PageIsRight(s: Store, roomId: string, before: Before, n: nat)
    requires OrderOk(s) && n >= 1 && !before.Malformed?
    ensures PageRight(s, roomId, before, n, PageOf(Listing(s, roomId), CursorOf(before), n))
  {
    var d := Listing(s, roomId);
    var o, page := Filtered(d, CursorOf(before)), PageOf(d, CursorOf(before), n);
    PageShape(d, CursorOf(before), n);
    var k := |page.items|;
    assert o[..|o|] == o;
    TopDescends(s, roomId, before, o, k);
    forall x <- page.items
      ensures Shows(s, roomId, before, x)
    {
      TopIsWanted(s, roomId, before, o, k, x);
    }
    forall m | Wanted(s, roomId, before, m) && !OnPage(page, m)
      ensures LeftFor(page, m)
    {
      MissingIsLeft(s, roomId, before, o, k, page, m);
    }
    if page.hasMore {
      NextIsLeft(s, roomId, before, o, k, page);
    }
  }

  /** Following nextCursor from the newest page shows no message twice, makes at most ceil(N / n)
      requests, and shows the room's whole history, newest first, exactly when creation times
      strictly drop at every multiple of the page size; then it takes ceil(N / n) requests. */
  lemma {:induction false} HistoryWalk(s: Store, roomId: string, n: nat)
    requires n >= 1 && OrderOk(s)
    ensures var d := Listing(s, roomId);
            var w := Follow(d, None, n);
            && (forall m :: m in d <==> m.id in s.msgs && s.msgs[m.id] == m && m.roomId == roomId)
            && Descending(d)
            && (w.0 == Show(d) <==> NoTieAcrossPages(d, n))
            && DistinctIds(w.0) && Ids(w.0) <= Ids(d)
            && w.1 <= PagesFor(|d|, n)
            && (NoTieAcrossPages(d, n) ==> w.1 == PagesFor(|d|, n))
  {
    var d := Listing(s, roomId);
    forall m {
      ListingIsTheRoom(s.msgs, s.order, roomId, m);
    }
    ListingDescends(s.msgs, s.order, roomId);
    FollowIsWalk(d, None, n);
    WalkItems(d, n);
    WalkRequests(d, n);
    WalkNeverRepeats(d, n);
  }

  /** Two members of a room write within one millisecond: a client who asks for pages of one message
      sees one of the two and is then told that this was all. */
  lemma TieLosesAMessage(roomId: string, u: string, v: string, content: string, at: int)
    requires !Blank(content)
    ensures var first, second := Create("a", roomId, u, u, content, at, true), Create("b", roomId, v, v, content, at, true);
            var s1 := Apply(Store(map[], []), first).0;
            var s := Apply(s1, second).0;
            && OpOk(Store(map[], []), first) && OpOk(s1, second) && OrderOk(s)
            && |Listing(s, roomId)| == 2 && |Follow(Listing(s, roomId), None, 1).0| == 1
            && !NoTieAcrossPages(Listing(s, roomId), 1)
  {
    var a := Message("a", roomId, u, u, Trim(content), map[], at, None, None);
    var b := Message("b", roomId, v, v, Trim(content), map[], at, None, None);
    var s0 := Store(map[], []);
    Stores(s0, Create("a", roomId, u, u, content, at, true), a);
    Stores(Store(map["a" := a], ["a"]), Create("b", roomId, v, v, content, at, true), b);
    assert StoreOfTwo(a, b) == Store(map["a" := a, "b" := b], ["a", "b"]);
    ListingOfTwo(a, b, roomId);
    WalkOverTie(b, a);
  }

  lemma Stores(s: Store, op: Op, m: Message)
    requires op.Create? && op.isMember && !Blank(op.content)
    requires m == Message(op.id, op.roomId, op.senderId, op.senderUsername, Trim(op.content), map[], op.at, None, None)
    ensures Apply(s, op).0 == Store(s.msgs[op.id := m], s.order + [op.id])
  {
    var _, _ := TrimIsTheCore(op.content);
  }

  ghost function StoreOfTwo(a: Message, b: Message): Store {
    Store(map[][a.id := a][b.id := b], [] + [a.id] + [b.id])
  }

  lemma ListingOfTwo(a: Message, b: Message, roomId: string)
    requires a.id != b.id && a.roomId == b.roomId == roomId && a.createdAt <= b.createdAt
    ensures OrderOk(StoreOfTwo(a, b)) && Listing(StoreOfTwo(a, b), roomId) == [b, a]
  {
    var s := StoreOfTwo(a, b);
    assert s.order[..1] == [a.id] && [a.id][..0] == [];
    assert ListIds(s.msgs, [a.id], roomId) == [a];
  }

  lemma WalkOverTie(b: Message, a: Message)
    requires b.createdAt == a.createdAt
    ensures |Follow([b, a], None, 1).0| == 1 && !NoTieAcrossPages([b, a], 1)
  {
    var d := [b, a];
    assert d[1..] == [a];
    assert Older([a], a.createdAt) == [] && Older(d, a.createdAt) == [];
    FollowIsWalk(d, None, 1);
    WalkStep(d, 1);
    assert PageEnd(1, 1) && d[0].createdAt == d[1].createdAt;
  }

  /** Some stored message is no older than the cursor, as holds of every cursor handed out. */
  ghost predicate Reached(s: Store, cursor: int) {
    exists id <- s.msgs :: s.msgs[id].createdAt >= cursor
  }

  /** No message appears, disappears, or changes its place. */
  ghost predicate SameSkeleton(s: Store, s': Store) {
    && s'.order == s.order && s'.msgs.Keys == s.msgs.Keys
    && forall id <- s.msgs :: SameIdentity(s.msgs[id], s'.msgs[id])
  }

  predicate SameIdentity(m: Message, m': Message) {
    m'.id == m.id && m'.roomId == m.roomId && m'.createdAt == m.createdAt
  }

  lemma {:induction false} SkeletonLists(msgs: map<string, Message>, msgs': map<string, Message>,
                                         order: seq<string>, roomId: string)
    requires forall id <- order :: id in msgs && id in msgs' && SameIdentity(msgs[id], msgs'[id])
    ensures Keys(ListIds(msgs', order, roomId)) == Keys(ListIds(msgs, order, roomId))
  {
    if order != [] {
      var rest, last := order[..|order| - 1], order[|order| - 1];
      assert last in order;
      SkeletonLists(msgs, msgs', rest, roomId);
      if msgs[last].roomId == roomId {
        KeysJoin([msgs[last]], ListIds(msgs, rest, roomId));
        KeysJoin([msgs'[last]], ListIds(msgs', rest, roomId));
        assert Keys([msgs[last]]) == Keys([msgs'[last]]);
      }
    }
  }

  /** A message is created under a fresh id, no earlier than any stored one, at the end of the order. */
  ghost predicate Appends(s: Store, s': Store, m: Message) {
    && m.id !in s.msgs && s' == Store(s.msgs[m.id := m], s.order + [m.id])
    && forall id <- s.msgs :: s.msgs[id].createdAt <= m.createdAt
  }

  /** Only a creation changes the skeleton, by one new message at the end. */
  lemma StepSkeleton(s: State, e: Event)
    requires Enabled(s, e) && OrderOk(s.store)
    ensures SameSkeleton(s.store, Step(s, e).store) || exists m :: Appends(s.store, Step(s, e).store, m)
  {
    if e.Write? && e.op.Create? && Apply(s.store, e.op).1.Ok? {
      assert Appends(s.store, Step(s, e).store, Step(s, e).store.msgs[e.op.id]);
    }
  }

  lemma AppendListing(s: Store, s': Store, m: Message, roomId: string)
    requires (forall id <- s.order :: id in s.msgs) && Appends(s, s', m)
    ensures Keys(Listing(s', roomId)) == (if m.roomId == roomId then [(m.id, m.createdAt)] else []) + Keys(Listing(s, roomId))
  {
    assert s'.order[..|s'.order| - 1] == s.order;
    SkeletonLists(s.msgs, s'.msgs, s.order, roomId);
    if m.roomId == roomId {
      KeysJoin([m], ListIds(s'.msgs, s.order, roomId));
    }
  }

  lemma OrderStaysOk(s: Store, s': Store)
    requires OrderOk(s) && (SameSkeleton(s, s') || exists m :: Appends(s, s', m))
    ensures OrderOk(s')
  {
  }

  lemma SkeletonLeavesOlder(s: Store, s': Store, roomId: string, cursor: int)
    requires (forall id <- s.order :: id in s.msgs) && SameSkeleton(s, s')
    ensures Keys(Older(Listing(s', roomId), cursor)) == Keys(Older(Listing(s, roomId), cursor))
  {
    SkeletonLists(s.msgs, s'.msgs, s.order, roomId);
    OlderByKeys(Listing(s', roomId), Listing(s, roomId), cursor);
  }

  lemma OlderSkipsHead(m: Message, d: seq<Message>, cursor: int)
    requires m.createdAt >= cursor
    ensures Older([m] + d, cursor) == Older(d, cursor)
  {
    assert ([m] + d)[1..] == d;
  }

  lemma AppendLeavesOlder(s: Store, s': Store, m: Message, roomId: string, cursor: int)
    requires (forall id <- s.order :: id in s.msgs) && Appends(s, s', m) && m.createdAt >= cursor
    ensures Keys(Older(Listing(s', roomId), cursor)) == Keys(Older(Listing(s, roomId), cursor))
  {
    var d, d' := Listing(s, roomId), Listing(s', roomId);
    AppendListing(s, s', m, roomId);
    if m.roomId == roomId {
      KeysJoin([m], d);
      OlderByKeys(d', [m] + d, cursor);
      OlderSkipsHead(m, d, cursor);
    } else {
      OlderByKeys(d', d, cursor);
    }
  }

  /** A write leaves alone what is older than a cursor already handed out. */
  lemma OlderIsUntouched(s: Store, s': Store, roomId: string, cursor: int)
    requires OrderOk(s) && Reached(s, cursor)
    requires SameSkeleton(s, s') || exists m :: Appends(s, s', m)
    ensures Reached(s', cursor)
    ensures Keys(Older(Listing(s', roomId), cursor)) == Keys(Older(Listing(s, roomId), cursor))
  {
    var id :| id in s.msgs && s.msgs[id].createdAt >= cursor;
    if SameSkeleton(s, s') {
      assert SameIdentity(s.msgs[id], s'.msgs[id]);
      SkeletonLeavesOlder(s, s', roomId, cursor);
    } else {
      var m :| Appends(s, s', m);
      assert s'.msgs[id] == s.msgs[id];
      AppendLeavesOlder(s, s', m, roomId, cursor);
    }
  }

  lemma {:induction false} RunLeavesOlder(s: State, es: seq<Event>, roomId: string, cursor: int)
    requires OrderOk(s.store) && Possible(s, es) && Reached(s.store, cursor)
    ensures OrderOk(Run(s, es).store) && Reached(Run(s, es).store, cursor)
    ensures Keys(Older(Listing(Run(s, es).store, roomId), cursor)) == Keys(Older(Listing(s.store, roomId), cursor))
    decreases |es|
  {
    if es != [] {
      var s' := Step(s, es[0]);
      StepSkeleton(s, es[0]);
      OrderStaysOk(s.store, s'.store);
      OlderIsUntouched(s.store, s'.store, roomId, cursor);
      RunLeavesOlder(s', es[1..], roomId, cursor);
    }
  }

  /** The same client while others write: `batches[i]` is what happens after page i. */
  ghost function FollowUnder(s: State, roomId: string, cursor: Option<int>, n: nat, batches: seq<seq<Event>>)
    : seq<Message>
    requires n >= 1
    decreases |batches|
  {
    var page := PageOf(Listing(s.store, roomId), cursor, n);
    if page.nextCursor.None? then page.items
    else if batches == [] then page.items + Follow(Listing(s.store, roomId), page.nextCursor, n).0
    else page.items + FollowUnder(Run(s, batches[0]), roomId, page.nextCursor, n, batches[1..])
  }

  ghost predicate PossibleBatches(s: State, batches: seq<seq<Event>>)
    decreases |batches|
  {
    batches == [] || (Possible(s, batches[0]) && PossibleBatches(Run(s, batches[0]), batches[1..]))
  }

  /** New messages, edits, soft deletions and reactions in between change neither which messages the
      remaining pages show nor their order. */
  lemma {:induction false} WalkIsStable(s: State, roomId: string, cursor: Option<int>, n: nat, batches: seq<seq<Event>>)
    requires n >= 1 && OrderOk(s.store) && PossibleBatches(s, batches)
    ensures Keys(FollowUnder(s, roomId, cursor, n, batches)) == Keys(Follow(Listing(s.store, roomId), cursor, n).0)
    decreases |batches|
  {
    var d := Listing(s.store, roomId);
    var o := Filtered(d, cursor);
    PageShape(d, cursor, n);
    if |o| > n {
      var page, next := PageOf(d, cursor, n), o[n - 1].createdAt;
      FollowStep(d, cursor, n, page.items, next);
      if batches != [] {
        CursorIsReached(s.store, roomId, cursor, n);
        var s' := Run(s, batches[0]);
        var d' := Listing(s'.store, roomId);
        RunLeavesOlder(s, batches[0], roomId, next);
        WalkIsStable(s', roomId, Some(next), n, batches[1..]);
        FollowIsWalk(d, Some(next), n);
        FollowIsWalk(d', Some(next), n);
        WalkByKeys(Older(d', next), Older(d, next), n);
        KeysJoin(page.items, FollowUnder(s', roomId, Some(next), n, batches[1..]));
        KeysJoin(page.items, Follow(d, Some(next), n).0);
      }
    }
  }

  lemma CursorIsReached(s: Store, roomId: string, cursor: Option<int>, n: nat)
    requires n >= 1 && OrderOk(s) && |Filtered(Listing(s, roomId), cursor)| > n
    ensures Reached(s, Filtered(Listing(s, roomId), cursor)[n - 1].createdAt)
  {
    var d := Listing(s, roomId);
    var m := Filtered(d, cursor)[n - 1];
    if cursor.Some? {
      OlderAreOlder(d, cursor.value);
    }
    ListingIsTheRoom(s.msgs, s.order, roomId, m);
  }
}
