/** Refresh tokens: rotation, logout, password reset, and the SCAN loop that revokes all of a user's
    tokens.  Times are in milliseconds; a JWT signature is taken as unforgeable. */
module RefreshTokens {
  import opened Common

  const REFRESH_TTL := 7 * 24 * 3600 * 1000
  const RESET_TTL := 60 * 60 * 1000

  type Keys = map<string, int>

  datatype Grant = Grant(user: string, expiresAt: int)

  /** The keys `refresh:{user}:{jti}` with their expiry, the keys `pwd-reset:{token}`, and the users'
      passwords, which the database holds as hashes. */
  datatype Store = Store(keys: Keys, resets: map<string, Grant>, passwords: map<string, string>)

  datatype Token = Token(user: string, jti: string)

  /** What a JWT that verifies says. */
  datatype Payload = Payload(token: Token, kind: string)

  function Prefix(u: string): string {
    "refresh:" + u + ":"
  }

  function Key(t: Token): string {
    Prefix(t.user) + t.jti
  }

  predicate HasPrefix(k: string, u: string) {
    Prefix(u) <= k
  }

  lemma CutPrefix(k: string, u: string)
    ensures HasPrefix(k, u) <==> exists rest :: k == "refresh:" + (u + ":" + rest)
  {
    if HasPrefix(k, u) {
      assert k == Prefix(u) + k[|Prefix(u)|..];
      assert k == "refresh:" + (u + ":" + k[|Prefix(u)|..]);
    }
    forall rest | k == "refresh:" + (u + ":" + rest) ensures HasPrefix(k, u) {
      assert k == Prefix(u) + rest;
    }
  }

  /** A key matches a user's pattern exactly when the token is that user's: ids hold no colon. */
  lemma KeyMatches(t: Token, u: string)
    requires ':' !in t.user && ':' !in u
    ensures HasPrefix(Key(t), u) <==> t.user == u
  {
    CutPrefix(Key(t), u);
    assert Key(t) == "refresh:" + (t.user + ":" + t.jti);
    if HasPrefix(Key(t), u) {
      var rest :| Key(t) == "refresh:" + (u + ":" + rest);
      assert Key(t)[8..] == t.user + ":" + t.jti == u + ":" + rest;
      SplitAtColon(t.user, t.jti, u, rest);
    }
  }

  lemma KeyInjective(s: Token, t: Token)
    requires ':' !in s.user && ':' !in t.user
    ensures Key(s) == Key(t) <==> s == t
  {
    if Key(s) == Key(t) {
      assert Key(s) == "refresh:" + (s.user + ":" + s.jti);
      assert Key(t) == "refresh:" + (t.user + ":" + t.jti);
      assert Key(s)[8..] == s.user + ":" + s.jti == t.user + ":" + t.jti;
      SplitAtColon(s.user, s.jti, t.user, t.jti);
    }
  }

  function Issue(st: Store, t: Token, now: int): Store {
    st.(keys := st.keys[Key(t) := now + REFRESH_TTL])
  }

  /** `p` is None for a JWT that does not verify. */
  function Validate(st: Store, p: Option<Payload>, now: int): Option<Token> {
    if p.Some? && p.value.kind == "refresh" && Key(p.value.token) in st.keys
       && Live(st.keys[Key(p.value.token)], now)
    then Some(p.value.token)
    else None
  }

  function Revoke(st: Store, t: Token): Store {
    st.(keys := st.keys - {Key(t)})
  }

  datatype RefreshError = InvalidRefreshToken | UserNotFound

  /** Rotation; `found` says whether the user still exists, `jti` is the fresh id. */
  function Refresh(st: Store, p: Option<Payload>, found: bool, jti: string, now: int): (Store, Result<Token, RefreshError>) {
    match Validate(st, p, now)
    case None => (st, Err(InvalidRefreshToken))
    case Some(t) =>
      if !found then (Revoke(st, t), Err(UserNotFound))
      else (Issue(Revoke(st, t), Token(t.user, jti), now), Ok(Token(t.user, jti)))
  }

  /** The payload is of a refresh token whose key is there and live. */
  predicate Accepts(st: Store, p: Option<Payload>, now: int) {
    && p.Some? && p.value.kind == "refresh" && Key(p.value.token) in st.keys
    && now < st.keys[Key(p.value.token)]
  }

  /** When a refresh succeeds, what it hands out, and what becomes of every key. */
  lemma RefreshEffect(st: Store, p: Option<Payload>, found: bool, jti: string, now: int)
    requires p.Some? ==> ':' !in p.value.token.user
    ensures var (st', r) := Refresh(st, p, found, jti, now);
            && (r == Err(InvalidRefreshToken) <==> !Accepts(st, p, now))
            && (r == Err(UserNotFound) <==> Accepts(st, p, now) && !found)
            && (r.Ok? <==> Accepts(st, p, now) && found)
            && st' == st.(keys := st'.keys)
            && (r == Err(InvalidRefreshToken) ==> st' == st)
            && (r == Err(UserNotFound) ==> st'.keys == st.keys - {Key(p.value.token)})
            && (r.Ok? ==>
                  var next, was := Key(r.value), Key(p.value.token);
                  && r.value.user == p.value.token.user && r.value.jti == jti
                  && next in st'.keys && st'.keys[next] == now + 7 * 24 * 3600 * 1000
                  && (jti != p.value.token.jti ==> was !in st'.keys)
                  && st'.keys - {next} == st.keys - {next, was})
    ensures var (st', r) := Refresh(st, p, found, jti, now);
            r.Ok? ==> forall later :: Accepts(st', Some(Payload(r.value, "refresh")), later) <==> later < now + 7 * 24 * 3600 * 1000
  {
    if Accepts(st, p, now) {
      KeyInjective(p.value.token, Token(p.value.token.user, jti));
    }
  }

  function Logout(st: Store, p: Option<Payload>, now: int): Store {
    match Validate(st, p, now)
    case None => st
    case Some(t) => Revoke(st, t)
  }

  /** A logout ends exactly the session it is about, if that is still going. */
  lemma LogoutEffect(st: Store, p: Option<Payload>, now: int)
    ensures Logout(st, p, now) == if Accepts(st, p, now) then st.(keys := st.keys - {Key(p.value.token)}) else st
    ensures !Accepts(Logout(st, p, now), p, now)
  {
  }

  datatype ResetError = MissingToken | WeakPassword | InvalidToken

  /** Whom a reset request is for, or why it is refused. */
  function Verdict(st: Store, token: string, newPassword: string, now: int): Result<string, ResetError> {
    if token == "" then Err(MissingToken)
    else if |newPassword| < 8 then Err(WeakPassword)
    else if token in st.resets && Live(st.resets[token].expiresAt, now) then Ok(st.resets[token].user)
    else Err(InvalidToken)
  }

  /** Whether the request gets as far as the GETDEL, which consumes the token. */
  predicate Consumes(token: string, newPassword: string) {
    token != "" && |newPassword| >= 8
  }

  function WithoutUser(keys: Keys, u: string): Keys {
    map k <- keys | !HasPrefix(k, u) :: keys[k]
  }

  /** findByIdAndUpdate: a user no longer there stays absent. */
  function WithPassword(passwords: map<string, string>, u: string, newPassword: string): map<string, string> {
    if u in passwords then passwords[u := newPassword] else passwords
  }

  /** resetPassword as one step. */
  function Reset(st: Store, token: string, newPassword: string, now: int): Store {
    var v := Verdict(st, token, newPassword, now);
    Store(if v.Ok? then WithoutUser(st.keys, v.value) else st.keys,
          if Consumes(token, newPassword) then st.resets - {token} else st.resets,
          if v.Ok? then WithPassword(st.passwords, v.value, newPassword) else st.passwords)
  }

  /** A reset goes through exactly for a live token and a password long enough; then the token is spent,
      the user has the new password and no session, and nobody else is touched. */
  lemma ResetEffect(st: Store, token: string, newPassword: string, now: int)
    ensures var v, st' := Verdict(st, token, newPassword, now), Reset(st, token, newPassword, now);
            && (v == Err(MissingToken) <==> token == "")
            && (v == Err(WeakPassword) <==> token != "" && |newPassword| < 8)
            && (v.Ok? <==> token != "" && |newPassword| >= 8
                           && token in st.resets && now < st.resets[token].expiresAt)
            && (token == "" || |newPassword| < 8 ==> st' == st)
            && (token != "" && |newPassword| >= 8 ==> st'.resets == st.resets - {token})
            && (v.Err? ==> st'.keys == st.keys && st'.passwords == st.passwords)
            && (v.Ok? ==>
                  var u := st.resets[token].user;
                  && v.value == u
                  && (forall k :: k in st'.keys <==> k in st.keys && !HasPrefix(k, u))
                  && (forall k <- st'.keys :: st'.keys[k] == st.keys[k])
                  && st'.passwords.Keys == st.passwords.Keys
                  && (u in st.passwords ==> st'.passwords[u] == newPassword)
                  && st'.passwords - {u} == st.passwords - {u})
  {
  }

  /* The SCAN loop */

  /** What other clients do between two calls of the loop. */
  datatype Command = SetKey(key: string, expiresAt: int) | DelKey(key: string)

  /** One SCAN reply, and the commands that follow it before the loop's next call. */
  datatype Reply = Reply(cursor: string, batch: seq<string>, meanwhile: seq<Command>)

  function After(keys: Keys, cs: seq<Command>): Keys
    decreases |cs|
  {
    if cs == [] then keys
    else
      match cs[0]
      case SetKey(k, at) => After(keys[k := at], cs[1..])
      case DelKey(k) => After(keys - {k}, cs[1..])
  }

  /** The keys when the i-th call is answered. */
  function At(keys: Keys, replies: seq<Reply>, i: nat): Keys
    requires i <= |replies|
  {
    if i == 0 then keys else After(At(keys, replies, i - 1), replies[i - 1].meanwhile)
  }

  function Found(replies: seq<Reply>): seq<string> {
    if replies == [] then [] else Found(replies[..|replies| - 1]) + replies[|replies| - 1].batch
  }

  ghost predicate Throughout(keys: Keys, replies: seq<Reply>, k: string) {
    forall i: nat | i < |replies| :: k in At(keys, replies, i)
  }

  /** What SCAN promises of one full iteration: it ends with cursor 0, returns only keys that match,
      and returns every matching key that was there all along, perhaps several times. */
  ghost predicate ScanGuarantee(keys: Keys, replies: seq<Reply>, u: string) {
    && replies != []
    && (forall i | 0 <= i < |replies| :: replies[i].cursor == "0" <==> i == |replies| - 1)
    && (forall k <- Found(replies) :: HasPrefix(k, u))
    && (forall k | HasPrefix(k, u) && Throughout(keys, replies, k) :: k in Found(replies))
  }

  /** The keys after the loop and its DEL. */
  function Revoked(keys: Keys, replies: seq<Reply>): Keys {
    At(keys, replies, |replies|) - Elements(Found(replies))
  }

  /** The loop leaves none of the user's keys that were there throughout and touches no other key;
      undisturbed, it removes exactly the user's keys. */
  lemma LoopRevokesTheUser(keys: Keys, replies: seq<Reply>, u: string)
    requires ScanGuarantee(keys, replies, u)
    ensures forall k | HasPrefix(k, u) && Throughout(keys, replies, k) :: k !in Revoked(keys, replies)
    ensures WithoutUser(Revoked(keys, replies), u) == WithoutUser(At(keys, replies, |replies|), u)
    ensures (forall r <- replies :: r.meanwhile == []) ==> Revoked(keys, replies) == WithoutUser(keys, u)
  {
    if forall r <- replies :: r.meanwhile == [] {
      forall i: nat | i <= |replies| ensures At(keys, replies, i) == keys {
        Undisturbed(keys, replies, i);
      }
      forall k | HasPrefix(k, u) && k in keys ensures k in Found(replies) {
        assert Throughout(keys, replies, k);
      }
    }
  }

  lemma {:induction false} Undisturbed(keys: Keys, replies: seq<Reply>, i: nat)
    requires i <= |replies| && forall r <- replies :: r.meanwhile == []
    ensures At(keys, replies, i) == keys
  {
    if i > 0 {
      Undisturbed(keys, replies, i - 1);
      assert replies[i - 1] in replies;
    }
  }

  /* Keys that come and go during the loop */

  lemma {:induction false} AppearsBySet(keys: Keys, cs: seq<Command>, k: string)
    requires k !in keys && k in After(keys, cs)
    ensures exists c <- cs :: c.SetKey? && c.key == k
    decreases |cs|
  {
    var c := cs[0];
    if !(c.SetKey? && c.key == k) {
      AppearsBySet(if c.SetKey? then keys[c.key := c.expiresAt] else keys - {c.key}, cs[1..], k);
    }
  }

  ghost predicate SetDuring(replies: seq<Reply>, i: nat, k: string)
    requires i < |replies|
  {
    exists c <- replies[i].meanwhile :: c.SetKey? && c.key == k
  }

  lemma {:induction false} AppearsDuring(keys: Keys, replies: seq<Reply>, i: nat, j: nat, k: string) returns (n: nat)
    requires i <= j <= |replies| && k !in At(keys, replies, i) && k in At(keys, replies, j)
    ensures i <= n < j && SetDuring(replies, n, k)
    decreases j
  {
    if k in At(keys, replies, j - 1) {
      n := AppearsDuring(keys, replies, i, j - 1, k);
    } else {
      n := j - 1;
      AppearsBySet(At(keys, replies, j - 1), replies[j - 1].meanwhile, k);
    }
  }

  /** What of the user's is there after the loop was set while it ran and is in no reply. */
  lemma SurvivorsWereSetDuring(keys: Keys, replies: seq<Reply>, u: string, k: string)
    requires ScanGuarantee(keys, replies, u) && HasPrefix(k, u)
    ensures k in Revoked(keys, replies) <==> k in At(keys, replies, |replies|) && k !in Found(replies)
    ensures k in Revoked(keys, replies) ==> exists i: nat :: i < |replies| && SetDuring(replies, i, k)
  {
    if k in Revoked(keys, replies) {
      assert !Throughout(keys, replies, k);
      var i: nat :| i < |replies| && k !in At(keys, replies, i);
      var n := AppearsDuring(keys, replies, i, |replies|, k);
    }
  }

  function Skip(batch: seq<string>, k: string): (r: seq<string>)
    ensures forall x :: x in r <==> x in batch && x != k
  {
    if batch == [] then []
    else (if batch[0] == k then [] else [batch[0]]) + Skip(batch[1..], k)
  }

  /** The same calls, had none of them reported `k`. */
  function Silent(replies: seq<Reply>, k: string): (r: seq<Reply>)
    ensures |r| == |replies|
    ensures forall i | 0 <= i < |r| :: r[i].cursor == replies[i].cursor && r[i].meanwhile == replies[i].meanwhile
  {
    if replies == [] then []
    else
      var last := replies[|replies| - 1];
      Silent(replies[..|replies| - 1], k) + [last.(batch := Skip(last.batch, k))]
  }

  lemma {:induction false} SilentFound(replies: seq<Reply>, k: string, x: string)
    ensures x in Found(Silent(replies, k)) <==> x in Found(replies) && x != k
  {
    if replies != [] {
      var front := replies[..|replies| - 1];
      SilentFound(front, k, x);
      assert Silent(replies, k)[..|replies| - 1] == Silent(front, k);
    }
  }

  ghost predicate SameCommands(replies: seq<Reply>, replies': seq<Reply>) {
    && |replies'| == |replies|
    && forall i | 0 <= i < |replies| ::
         replies'[i].cursor == replies[i].cursor && replies'[i].meanwhile == replies[i].meanwhile
  }

  lemma {:induction false} SameKeys(keys: Keys, replies: seq<Reply>, replies': seq<Reply>, i: nat)
    requires SameCommands(replies, replies') && i <= |replies|
    ensures At(keys, replies', i) == At(keys, replies, i)
  {
    if i > 0 {
      SameKeys(keys, replies, replies', i - 1);
    }
  }

  ghost predicate SurvivesIn(keys: Keys, replies: seq<Reply>, u: string, k: string) {
    ScanGuarantee(keys, replies, u) && k in Revoked(keys, replies)
  }

  /** Which of the user's keys may be left, whatever SCAN chooses to report within its guarantee:
      exactly those that are there at the end and were not there throughout. */
  lemma MaySurviveIff(keys: Keys, replies: seq<Reply>, u: string, k: string)
    requires ScanGuarantee(keys, replies, u) && HasPrefix(k, u)
    ensures (exists replies' :: SameCommands(replies, replies') && SurvivesIn(keys, replies', u, k)) <==>
            k in At(keys, replies, |replies|) && !Throughout(keys, replies, k)
  {
    if replies' :| SameCommands(replies, replies') && SurvivesIn(keys, replies', u, k) {
      forall i: nat | i <= |replies| ensures At(keys, replies', i) == At(keys, replies, i) {
        SameKeys(keys, replies, replies', i);
      }
      assert Throughout(keys, replies, k) ==> Throughout(keys, replies', k);
    }
    if k in At(keys, replies, |replies|) && !Throughout(keys, replies, k) {
      SilenceKeepsGuarantee(keys, replies, u, k);
      var silent := Silent(replies, k);
      assert SameCommands(replies, silent);
      SameKeys(keys, replies, silent, |replies|);
      SilentFound(replies, k, k);
      assert SurvivesIn(keys, silent, u, k);
    }
  }

  lemma SilenceKeepsGuarantee(keys: Keys, replies: seq<Reply>, u: string, k: string)
    requires ScanGuarantee(keys, replies, u) && !Throughout(keys, replies, k)
    ensures ScanGuarantee(keys, Silent(replies, k), u)
  {
    var silent := Silent(replies, k);
    forall i: nat | i <= |replies| ensures At(keys, silent, i) == At(keys, replies, i) {
      SameKeys(keys, replies, silent, i);
    }
    forall x
      ensures x in Found(silent) <==> x in Found(replies) && x != k
    {
      SilentFound(replies, k, x);
    }
    forall x | HasPrefix(x, u) && Throughout(keys, silent, x)
      ensures x in Found(silent)
    {
      assert Throughout(keys, replies, x);
    }
  }

  /** Such a loop: the first call reports the user's one token, which is then refreshed; the second call
      reports nothing, and the new token is left. */
  lemma TokenSetDuringIsLeft(was: Token, next: Token, at: int)
    requires was.user == next.user && was.jti != next.jti
    ensures var keys := map[Key(was) := at];
            var first := Reply("1", [Key(was)], [DelKey(Key(was)), SetKey(Key(next), at)]);
            var replies := [first, Reply("0", [], [])];
            ScanGuarantee(keys, replies, was.user) && Key(next) in Revoked(keys, replies)
  {
    var keys: Keys := map[Key(was) := at];
    var first := Reply("1", [Key(was)], [DelKey(Key(was)), SetKey(Key(next), at)]);
    var replies := [first, Reply("0", [], [])];
    assert Key(was)[|Prefix(was.user)|..] == was.jti && Key(next)[|Prefix(was.user)|..] == next.jti;
    assert first.meanwhile[1..] == [SetKey(Key(next), at)] && first.meanwhile[1..][1..] == [];
    var none: Keys := map[];
    var after: Keys := map[Key(next) := at];
    assert keys - {Key(was)} == none && none[Key(next) := at] == after;
    assert After(none, first.meanwhile[1..]) == After(after, []) == after;
    assert After(keys, first.meanwhile) == After(keys - {Key(was)}, first.meanwhile[1..]);
    assert At(keys, replies, 0) == keys;
    assert At(keys, replies, 1) == After(keys, first.meanwhile) == after;
    assert At(keys, replies, 2) == After(after, []) == after;
    assert replies[..1] == [first] && [first][..0] == [];
    assert Found([first]) == [Key(was)] && Found(replies) == [Key(was)];
    forall k
      ensures !Throughout(keys, replies, k)
    {
      assert k !in At(keys, replies, 0) || k !in At(keys, replies, 1);
    }
  }

  class TokenStore {
    var keys: Keys
    var resets: map<string, Grant>
    var passwords: map<string, string>

    ghost function State(): Store
      reads this
    {
      Store(keys, resets, passwords)
    }

    constructor ()
      ensures State() == Store(map[], map[], map[])
    {
      keys, resets, passwords := map[], map[], map[];
    }

    method IssueRefreshToken(t: Token, now: int)
      modifies this`keys
      ensures State() == Issue(old(State()), t, now)
    {
      keys := keys[Key(t) := now + REFRESH_TTL];
    }

    method ValidateRefreshToken(p: Option<Payload>, now: int) returns (r: Option<Token>)
      ensures r == Validate(State(), p, now)
    {
      if p.None? || p.value.kind != "refresh" {
        return None;
      }
      var t := p.value.token;
      if Key(t) !in keys || !Live(keys[Key(t)], now) {
        return None;
      }
      r := Some(t);
    }

    method RevokeRefreshToken(t: Token)
      modifies this`keys
      ensures State() == Revoke(old(State()), t)
    {
      keys := keys - {Key(t)};
    }

    method RefreshSession(p: Option<Payload>, found: bool, jti: string, now: int)
      returns (r: Result<Token, RefreshError>)
      modifies this`keys
      ensures (State(), r) == Refresh(old(State()), p, found, jti, now)
    {
      var valid := ValidateRefreshToken(p, now);
      if valid.None? {
        return Err(InvalidRefreshToken);
      }
      RevokeRefreshToken(valid.value);
      if !found {
        return Err(UserNotFound);
      }
      var next := Token(valid.value.user, jti);
      IssueRefreshToken(next, now);
      r := Ok(next);
    }

    method EndSession(p: Option<Payload>, now: int)
      modifies this`keys
      ensures State() == Logout(old(State()), p, now)
    {
      var valid := ValidateRefreshToken(p, now);
      if valid.Some? {
        RevokeRefreshToken(valid.value);
      }
    }

    /** The do-while over SCAN replies, other clients running in between, and the one DEL. */
    method InvalidateAllRefreshTokens(userId: string, replies: seq<Reply>)
      requires ScanGuarantee(keys, replies, userId)
      modifies this`keys
      ensures keys == Revoked(old(keys), replies)
    {
      var doomed := replies[0].batch;
      var cursor := replies[0].cursor;
      keys := After(keys, replies[0].meanwhile);
      var n := 1;
      assert replies[..1][..0] == [] && Found(replies[..1]) == doomed;
      while cursor != "0"
        invariant 1 <= n <= |replies| && cursor == replies[n - 1].cursor
        invariant doomed == Found(replies[..n])
        invariant keys == At(old(keys), replies, n)
        decreases |replies| - n
      {
        assert replies[..n + 1][..n] == replies[..n];
        cursor := replies[n].cursor;
        doomed := doomed + replies[n].batch;
        keys := After(keys, replies[n].meanwhile);
        n := n + 1;
      }
      assert replies[..n] == replies;
      if |doomed| > 0 {
        keys := keys - (set k | k in doomed);
      }
    }

    method ResetPassword(token: string, newPassword: string, replies: seq<Reply>, now: int)
      returns (r: Result<string, ResetError>)
      requires var v := Verdict(State(), token, newPassword, now);
               v.Ok? ==> ScanGuarantee(keys, replies, v.value)
      modifies this
      ensures r == Verdict(old(State()), token, newPassword, now)
      ensures resets == Reset(old(State()), token, newPassword, now).resets
      ensures passwords == if r.Ok? then WithPassword(old(passwords), r.value, newPassword) else old(passwords)
      ensures keys == if r.Ok? then Revoked(old(keys), replies) else old(keys)
      ensures (forall reply <- replies :: reply.meanwhile == []) ==>
                State() == Reset(old(State()), token, newPassword, now)
    {
      if token == "" {
        return Err(MissingToken);
      }
      if |newPassword| < 8 {
        return Err(WeakPassword);
      }
      var grant := if token in resets && Live(resets[token].expiresAt, now) then Some(resets[token].user) else None;
      resets := resets - {token};
      if grant.None? {
        return Err(InvalidToken);
      }
      if grant.value in passwords {
        passwords := passwords[grant.value := newPassword];
      }
      LoopRevokesTheUser(keys, replies, grant.value);
      InvalidateAllRefreshTokens(grant.value, replies);
      r := Ok(grant.value);
    }
  }

  /* Runs */

  /** A token's user, the jti of the login its lineage starts from, and when it was issued. */
  datatype Origin = Origin(user: string, root: string, at: int)

  /** Beside the store: every token ever issued, the newest of each lineage, the tokens refresh
      accepted, those a logout or a reset ended, and the reset tokens handed out and honoured. */
  datatype World = World(st: Store, issued: map<string, Origin>, newest: map<string, string>,
                         accepted: seq<string>, ended: set<string>,
                         asked: set<string>, honoured: seq<string>, now: int)

  /** `SignIn` is a registration, with the password chosen, or a login. */
  datatype Event =
    | SignIn(user: string, jti: string, chosen: Option<string>)
    | Rotate(p: Option<Payload>, found: bool, jti: string)
    | SignOut(p: Option<Payload>)
    | Forgot(token: string, user: string)
    | ResetIt(token: string, newPassword: string)
    | Tick(to: int)

  predicate Genuine(w: World, p: Option<Payload>) {
    p.Some? ==> p.value.token.jti in w.issued && w.issued[p.value.token.jti].user == p.value.token.user
  }

  /** Ids are fresh, users' ids hold no colon, and a token that verifies was issued. */
  predicate Enabled(w: World, e: Event) {
    match e
    case SignIn(u, jti, chosen) => jti !in w.issued && ':' !in u && (chosen.Some? <==> u !in w.st.passwords)
    case Rotate(p, _, jti) => jti !in w.issued && Genuine(w, p)
    case SignOut(p) => Genuine(w, p)
    case Forgot(token, u) => token !in w.asked && ':' !in u
    case ResetIt(_, _) => true
    case Tick(to) => w.now <= to
  }

  function TokenOf(w: World, jti: string): Token
    requires jti in w.issued
  {
    Token(w.issued[jti].user, jti)
  }

  function Step(w: World, e: Event): World
    requires Enabled(w, e)
  {
    match e
    case SignIn(u, jti, chosen) =>
      var st := if chosen.Some? then w.st.(passwords := w.st.passwords[u := chosen.value]) else w.st;
      w.(st := Issue(st, Token(u, jti), w.now), issued := w.issued[jti := Origin(u, jti, w.now)],
         newest := w.newest[jti := jti])
    case Rotate(p, found, jti) =>
      var (st, r) := Refresh(w.st, p, found, jti, w.now);
      var w1 := w.(st := st, accepted := if r == Err(InvalidRefreshToken) then w.accepted
                                         else w.accepted + [p.value.token.jti]);
      if r.Err? then w1
      else
        var parent := w.issued[p.value.token.jti];
        w1.(issued := w.issued[jti := Origin(parent.user, parent.root, w.now)],
            newest := w.newest[parent.root := jti])
    case SignOut(p) =>
      w.(st := Logout(w.st, p, w.now),
         ended := w.ended + if Validate(w.st, p, w.now).Some? then {p.value.token.jti} else {})
    case Forgot(token, u) =>
      w.(st := w.st.(resets := w.st.resets[token := Grant(u, w.now + RESET_TTL)]), asked := w.asked + {token})
    case ResetIt(token, newPassword) =>
      var v := Verdict(w.st, token, newPassword, w.now);
      var w1 := w.(st := Reset(w.st, token, newPassword, w.now));
      if v.Err? then w1
      else w1.(ended := w.ended + (set j <- w.issued | w.issued[j].user == v.value),
               honoured := w.honoured + [token])
    case Tick(to) => w.(now := to)
  }

  ghost predicate Possible(w: World, es: seq<Event>)
    decreases |es|
  {
    es == [] || (Enabled(w, es[0]) && Possible(Step(w, es[0]), es[1..]))
  }

  ghost function Run(w: World, es: seq<Event>): World
    requires Possible(w, es)
    decreases |es|
  {
    if es == [] then w else Run(Step(w, es[0]), es[1..])
  }

  const START := World(Store(map[], map[], map[]), map[], map[], [], {}, {}, [], 0)

  predicate Stored(w: World, jti: string)
    requires jti in w.issued
  {
    Key(TokenOf(w, jti)) in w.st.keys
  }

  /** A refresh with this token would be accepted now. */
  predicate Usable(w: World, jti: string)
    requires jti in w.issued
  {
    Validate(w.st, Some(Payload(TokenOf(w, jti), "refresh")), w.now).Some?
  }

  predicate Over(w: World, jti: string) {
    jti in w.accepted || jti in w.ended
  }

  /** An issued token's key is there exactly until the token is used or ended, its TTL runs from its
      issue, and only the newest token of a lineage has one. */
  ghost predicate JtiOk(w: World, jti: string) {
    jti in w.issued ==>
      var o := w.issued[jti];
      && ':' !in o.user
      && o.root in w.issued && o.root in w.newest
      && (Stored(w, jti) <==> !Over(w, jti))
      && (Stored(w, jti) ==> w.newest[o.root] == jti && w.st.keys[Key(TokenOf(w, jti))] == o.at + REFRESH_TTL)
  }

  ghost predicate Unique(s: seq<string>) {
    forall i, j | 0 <= i < j < |s| :: s[i] != s[j]
  }

  ghost predicate ResetsOk(w: World) {
    && (forall t <- w.st.resets :: t in w.asked && t !in w.honoured && ':' !in w.st.resets[t].user)
    && (forall t <- w.honoured :: t in w.asked)
    && Unique(w.honoured)
  }

  ghost predicate AllOk(w: World) {
    && (forall jti :: JtiOk(w, jti))
    && (forall jti | Over(w, jti) :: jti in w.issued)
    && Unique(w.accepted)
    && ResetsOk(w)
  }

  lemma SignInKeepsJti(w: World, e: Event, j: string)
    requires AllOk(w) && Enabled(w, e) && e.SignIn?
    ensures JtiOk(Step(w, e), j)
  {
    assert JtiOk(w, j);
    var t := Token(e.user, e.jti);
    if j in w.issued {
      KeyInjective(TokenOf(w, j), t);
    }
    assert !Over(w, e.jti);
  }

  lemma RotateKeepsJti(w: World, e: Event, j: string)
    requires AllOk(w) && Enabled(w, e) && e.Rotate? && Validate(w.st, e.p, w.now).Some?
    ensures JtiOk(Step(w, e), j)
  {
    var v := Step(w, e);
    var used := e.p.value.token;
    assert used == TokenOf(w, used.jti) && JtiOk(w, used.jti) && JtiOk(w, j);
    assert v.accepted == w.accepted + [used.jti];
    var t := Token(used.user, e.jti);
    KeyInjective(used, t);
    if j in w.issued {
      KeyInjective(TokenOf(w, j), used);
      KeyInjective(TokenOf(w, j), t);
      assert TokenOf(v, j) == TokenOf(w, j);
    }
    assert !Over(w, e.jti);
  }

  lemma SignOutKeepsJti(w: World, e: Event, j: string)
    requires AllOk(w) && Enabled(w, e) && e.SignOut?
    ensures JtiOk(Step(w, e), j)
  {
    assert JtiOk(w, j);
    if Validate(w.st, e.p, w.now).Some? {
      var used := e.p.value.token;
      assert used == TokenOf(w, used.jti) && JtiOk(w, used.jti);
      if j in w.issued {
        KeyInjective(TokenOf(w, j), used);
      }
    }
  }

  lemma ResetKeepsJti(w: World, e: Event, j: string)
    requires AllOk(w) && Enabled(w, e) && e.ResetIt?
    ensures JtiOk(Step(w, e), j)
  {
    assert JtiOk(w, j);
    var v := Verdict(w.st, e.token, e.newPassword, w.now);
    if v.Ok? && j in w.issued {
      KeyMatches(TokenOf(w, j), v.value);
    }
  }

  lemma StepKeepsResets(w: World, e: Event)
    requires ResetsOk(w) && Enabled(w, e)
    ensures ResetsOk(Step(w, e))
  {
  }

  lemma StepKeepsOk(w: World, e: Event)
    requires AllOk(w) && Enabled(w, e)
    ensures AllOk(Step(w, e))
  {
    forall j ensures JtiOk(Step(w, e), j) {
      assert JtiOk(w, j);
      match e {
        case SignIn(_, _, _) => SignInKeepsJti(w, e, j);
        case Rotate(_, _, _) =>
          if Validate(w.st, e.p, w.now).Some? { RotateKeepsJti(w, e, j); }
        case SignOut(_) => SignOutKeepsJti(w, e, j);
        case ResetIt(_, _) => ResetKeepsJti(w, e, j);
        case _ =>
      }
    }
    StepKeepsResets(w, e);
    if e.Rotate? && Validate(w.st, e.p, w.now).Some? {
      var used := e.p.value.token.jti;
      assert JtiOk(w, used) && Stored(w, used) && used !in w.accepted;
    }
  }

  lemma {:induction false} RunKeepsOk(w: World, es: seq<Event>)
    requires AllOk(w) && Possible(w, es)
    ensures AllOk(Run(w, es))
    decreases |es|
  {
    if es != [] {
      StepKeepsOk(w, es[0]);
      RunKeepsOk(Step(w, es[0]), es[1..]);
    }
  }

  lemma ReachableIsOk(es: seq<Event>)
    requires Possible(START, es)
    ensures AllOk(Run(START, es))
  {
    assert forall j :: JtiOk(START, j);
    RunKeepsOk(START, es);
  }

  /** Of all the tokens descending from one login or registration at most one is usable. */
  lemma OneUsableTokenPerLogin(es: seq<Event>, j: string, k: string)
    requires Possible(START, es)
    ensures var w := Run(START, es);
            j in w.issued && k in w.issued && w.issued[j].root == w.issued[k].root ==>
              !(j != k && Usable(w, j) && Usable(w, k))
  {
    ReachableIsOk(es);
    var w := Run(START, es);
    assert JtiOk(w, j) && JtiOk(w, k);
  }

  /** Refresh accepts a token exactly when it was issued less than seven days ago and has not been
      accepted before, logged out, or ended by a reset; and never twice. */
  lemma UsableIff(es: seq<Event>, j: string)
    requires Possible(START, es)
    ensures var w := Run(START, es);
            && Unique(w.accepted)
            && (j in w.issued ==>
                  (Usable(w, j) <==> !Over(w, j) && w.now < w.issued[j].at + REFRESH_TTL))
  {
    ReachableIsOk(es);
    assert JtiOk(Run(START, es), j);
  }

  /** A reset token is honoured at most once. */
  lemma ResetTokensAreSingleUse(es: seq<Event>)
    requires Possible(START, es)
    ensures Unique(Run(START, es).honoured)
  {
    ReachableIsOk(es);
  }

  lemma {:induction false} OverStays(w: World, es: seq<Event>, j: string)
    requires Possible(w, es) && j in w.issued && Over(w, j)
    ensures j in Run(w, es).issued && Over(Run(w, es), j)
    ensures Run(w, es).issued[j] == w.issued[j]
    decreases |es|
  {
    if es != [] {
      OverStays(Step(w, es[0]), es[1..], j);
    }
  }

  /** A password reset ends every session its user had, for the rest of the run, and no one else's. */
  lemma ResetEndsAllSessions(es: seq<Event>, e: Event, later: seq<Event>, j: string)
    requires Possible(START, es)
    requires var w := Run(START, es);
             && j in w.issued && e.ResetIt?
             && Verdict(w.st, e.token, e.newPassword, w.now).Ok?
             && Possible(Step(w, e), later)
    ensures var w := Run(START, es);
            var u := Verdict(w.st, e.token, e.newPassword, w.now).value;
            var v := Run(Step(w, e), later);
            && (w.issued[j].user == u ==> j in v.issued && !Usable(v, j))
            && (w.issued[j].user != u ==> (Usable(Step(w, e), j) <==> Usable(w, j)))
  {
    ReachableIsOk(es);
    var w := Run(START, es);
    var w1 := Step(w, e);
    var u := Verdict(w.st, e.token, e.newPassword, w.now).value;
    StepKeepsOk(w, e);
    assert JtiOk(w, j) && JtiOk(w1, j);
    if w.issued[j].user == u {
      RunKeepsOk(w1, later);
      OverStays(w1, later, j);
      assert JtiOk(Run(w1, later), j);
    }
  }

  /** While no reset is honoured, whoever has registered keeps the password chosen then. */
  lemma {:induction false} PasswordsStayWithoutReset(w: World, es: seq<Event>, u: string)
    requires Possible(w, es) && u in w.st.passwords
    ensures |Run(w, es).honoured| >= |w.honoured| && u in Run(w, es).st.passwords
    ensures Run(w, es).honoured == w.honoured ==> Run(w, es).st.passwords[u] == w.st.passwords[u]
    decreases |es|
  {
    if es != [] {
      PasswordsStayWithoutReset(Step(w, es[0]), es[1..], u);
    }
  }
}
