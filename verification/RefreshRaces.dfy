/** Refreshing when nothing is atomic: EXISTS, DEL and SET are separate steps of each call, and calls
    interleave with each other, with logins and with revocations. */
module RefreshRaces {
  import opened Common
  import RefreshTokens

  const REFRESH_TTL := RefreshTokens.REFRESH_TTL

  /** A call after EXISTS has found its token, and after its DEL. */
  datatype Phase = Validated(jti: nat) | Revoked(jti: nat)

  /** The stored tokens with their expiry, the login each token ever issued descends from, and the
      refresh calls under way. */
  datatype State = State(keys: map<nat, int>, root: map<nat, nat>, calls: map<nat, Phase>, now: int)

  /** `Remove` stands for logouts and password resets. */
  datatype Event =
    | SignIn(jti: nat)
    | Exists(c: nat, jti: nat)
    | Del(c: nat)
    | Set(c: nat, found: bool, jti: nat)
    | Remove(jtis: set<nat>)
    | Tick(to: int)

  predicate Enabled(s: State, e: Event) {
    match e
    case SignIn(jti) => jti !in s.root
    case Exists(c, jti) => c !in s.calls && jti in s.root
    case Del(c) => c in s.calls && s.calls[c].Validated?
    case Set(c, _, jti) => c in s.calls && s.calls[c].Revoked? && s.calls[c].jti in s.root && jti !in s.root
    case Remove(_) => true
    case Tick(to) => s.now <= to
  }

  predicate Usable(s: State, jti: nat) {
    jti in s.keys && Live(s.keys[jti], s.now)
  }

  function Step(s: State, e: Event): State
    requires Enabled(s, e)
  {
    match e
    case SignIn(jti) => s.(keys := s.keys[jti := s.now + REFRESH_TTL], root := s.root[jti := jti])
    case Exists(c, jti) => if Usable(s, jti) then s.(calls := s.calls[c := Validated(jti)]) else s
    case Del(c) => s.(keys := s.keys - {s.calls[c].jti}, calls := s.calls[c := Revoked(s.calls[c].jti)])
    case Set(c, found, jti) =>
      var rest := s.(calls := s.calls - {c});
      if !found then rest
      else rest.(keys := s.keys[jti := s.now + REFRESH_TTL], root := s.root[jti := s.root[s.calls[c].jti]])
    case Remove(jtis) => s.(keys := s.keys - jtis)
    case Tick(to) => s.(now := to)
  }

  ghost predicate Possible(s: State, es: seq<Event>)
    decreases |es|
  {
    es == [] || (Enabled(s, es[0]) && Possible(Step(s, es[0]), es[1..]))
  }

  ghost function Run(s: State, es: seq<Event>): State
    requires Possible(s, es)
    decreases |es|
  {
    if es == [] then s else Run(Step(s, es[0]), es[1..])
  }

  lemma RunCons(s: State, e: Event, es: seq<Event>)
    requires Enabled(s, e)
    ensures Possible(s, [e] + es) <==> Possible(Step(s, e), es)
    ensures Possible(s, [e] + es) ==> Run(s, [e] + es) == Run(Step(s, e), es)
  {
    assert ([e] + es)[1..] == es;
  }

  const START := State(map[], map[], map[], 0)

  /** With nothing in between, the steps of one refresh come to the atomic refresh: a usable token is
      replaced by the new one in its lineage, and is just deleted when the user is gone; any other token
      changes nothing. */
  lemma SerialIsAtomic(s: State, c: nat, jti: nat, found: bool, next: nat)
    requires Enabled(s, Exists(c, jti)) && next !in s.root
    ensures !Usable(s, jti) ==> Step(s, Exists(c, jti)) == s
    ensures Usable(s, jti) ==>
              var s1 := Step(s, Exists(c, jti));
              && Enabled(s1, Del(c)) && Enabled(Step(s1, Del(c)), Set(c, found, next))
              && Step(Step(s1, Del(c)), Set(c, found, next)) ==
                   if found then s.(keys := (s.keys - {jti})[next := s.now + REFRESH_TTL], root := s.root[next := s.root[jti]])
                   else s.(keys := s.keys - {jti})
  {
    if Usable(s, jti) {
      var s2 := Step(Step(s, Exists(c, jti)), Del(c));
      assert s2.calls - {c} == s.calls;
    }
  }

  /** Every stored token, every token a call holds and every login was issued. */
  predicate Wf(s: State) {
    && s.keys.Keys <= s.root.Keys
    && (forall c <- s.calls :: s.calls[c].jti in s.root)
    && (forall j <- s.root :: s.root[j] in s.root)
  }

  lemma StepKeepsWf(s: State, e: Event)
    requires Wf(s) && Enabled(s, e)
    ensures Wf(Step(s, e))
  {
  }

  /** The promise: of the tokens that descend from one login at most one is usable. */
  ghost predicate OneUsable(s: State) {
    forall j, k :: BothUsable(s, j, k) ==> j == k
  }

  predicate BothUsable(s: State, j: nat, k: nat) {
    Usable(s, j) && Usable(s, k) && j in s.root && k in s.root && s.root[j] == s.root[k]
  }

  ghost predicate NoValidations(es: seq<Event>) {
    forall e <- es :: !e.Exists?
  }

  /** However the calls under way and everything else go on, as long as nothing more is validated, the
      promise is kept. */
  ghost predicate SafeAfter(s: State) {
    forall es | Possible(s, es) && NoValidations(es) :: OneUsable(Run(s, es))
  }

  /* What a lineage's next token can come from: a call, or a usable token no call is about to delete. */

  ghost predicate Claimed(s: State, j: nat) {
    exists c <- s.calls :: s.calls[c] == Validated(j)
  }

  predicate CallOf(s: State, c: nat, r: nat) {
    c in s.calls && s.calls[c].jti in s.root && s.root[s.calls[c].jti] == r
  }

  ghost predicate FreeKey(s: State, j: nat, r: nat) {
    Usable(s, j) && j in s.root && s.root[j] == r && !Claimed(s, j)
  }

  ghost predicate OneCarrier(s: State, r: nat) {
    && (forall c, d :: CallOf(s, c, r) && CallOf(s, d, r) ==> c == d)
    && (forall j, k :: FreeKey(s, j, r) && FreeKey(s, k, r) ==> j == k)
    && (forall c, j :: !(CallOf(s, c, r) && FreeKey(s, j, r)))
  }

  ghost predicate OneCarrierEach(s: State) {
    forall r :: OneCarrier(s, r)
  }

  /** A validation finds a token that another call has validated and not yet deleted. */
  ghost predicate SecondValidation(s: State, e: Event) {
    e.Exists? && Usable(s, e.jti) && Claimed(s, e.jti)
  }

  /** A call of the lineage was one before or has just validated its free token. */
  lemma CallsComeFrom(s: State, e: Event, c: nat, r: nat)
    requires Wf(s) && Enabled(s, e) && !SecondValidation(s, e) && CallOf(Step(s, e), c, r)
    ensures CallOf(s, c, r) || (e.Exists? && c == e.c && FreeKey(s, e.jti, r))
  {
  }

  lemma ClaimsStay(s: State, e: Event, j: nat)
    requires Enabled(s, e) && Claimed(s, j)
    ensures Claimed(Step(s, e), j) || j !in Step(s, e).keys || (e.Set? && j == e.jti)
  {
    var c :| c in s.calls && s.calls[c] == Validated(j);
    if e != Del(c) {
      assert c in Step(s, e).calls && Step(s, e).calls[c] == Validated(j);
    }
  }

  /** A free token was one before, or starts the lineage, or ends one of its calls; and it is not one
      that has just been validated. */
  lemma FreeKeysComeFrom(s: State, e: Event, j: nat, r: nat)
    requires Wf(s) && Enabled(s, e) && FreeKey(Step(s, e), j, r)
    ensures FreeKey(s, j, r) || (e.SignIn? && j == e.jti && r == j) || (e.Set? && j == e.jti && CallOf(s, e.c, r))
    ensures e.Exists? && Usable(s, e.jti) ==> j != e.jti
  {
    if Claimed(s, j) {
      ClaimsStay(s, e, j);
    }
    if e.Exists? && Usable(s, e.jti) {
      assert Step(s, e).calls[e.c] == Validated(e.jti);
    }
  }

  lemma StepKeepsCarrier(s: State, e: Event, r: nat)
    requires Wf(s) && Enabled(s, e) && OneCarrier(s, r) && !SecondValidation(s, e)
    ensures OneCarrier(Step(s, e), r)
  {
    var s' := Step(s, e);
    forall c | CallOf(s', c, r)
      ensures CallOf(s, c, r) || (e.Exists? && c == e.c && FreeKey(s, e.jti, r))
    {
      CallsComeFrom(s, e, c, r);
    }
    forall j | FreeKey(s', j, r)
      ensures FreeKey(s, j, r) || (e.SignIn? && j == e.jti && r == j) || (e.Set? && j == e.jti && CallOf(s, e.c, r))
      ensures e.Exists? && Usable(s, e.jti) ==> j != e.jti
    {
      FreeKeysComeFrom(s, e, j, r);
    }
  }

  lemma CarrierGivesOne(s: State)
    requires Wf(s) && OneCarrierEach(s)
    ensures OneUsable(s)
  {
    forall j, k | BothUsable(s, j, k)
      ensures j == k
    {
      var r := s.root[j];
      assert OneCarrier(s, r);
      assert FreeKey(s, j, r) <==> !Claimed(s, j);
      assert FreeKey(s, k, r) <==> !Claimed(s, k);
      if c :| c in s.calls && s.calls[c] == Validated(j) {
        assert CallOf(s, c, r);
      }
      if d :| d in s.calls && s.calls[d] == Validated(k) {
        assert CallOf(s, d, r);
      }
    }
  }

  lemma {:induction false} CarriersStayUnvalidated(s: State, es: seq<Event>)
    requires Wf(s) && OneCarrierEach(s) && Possible(s, es) && NoValidations(es)
    ensures OneUsable(Run(s, es))
    decreases |es|
  {
    if es == [] {
      CarrierGivesOne(s);
    } else {
      assert es[0] in es;
      forall r ensures OneCarrier(Step(s, es[0]), r) {
        assert OneCarrier(s, r);
        StepKeepsCarrier(s, es[0], r);
      }
      StepKeepsWf(s, es[0]);
      CarriersStayUnvalidated(Step(s, es[0]), es[1..]);
    }
  }

  lemma {:induction false} FreshId(ids: set<nat>) returns (n: nat)
    ensures forall i <- ids :: i < n
  {
    n := 0;
    if ids != {} {
      var i :| i in ids;
      var m := FreshId(ids - {i});
      n := if i < m then m else i + 1;
      forall k <- ids
        ensures k < n
      {
        assert k == i || k in ids - {i};
      }
    }
  }

  lemma StepKeepsUnsafe(s: State, e: Event)
    requires Enabled(s, e) && !e.Exists? && !SafeAfter(Step(s, e))
    ensures !SafeAfter(s)
  {
    var es :| Possible(Step(s, e), es) && NoValidations(es) && !OneUsable(Run(Step(s, e), es));
    RunCons(s, e, es);
    assert NoValidations([e] + es);
    assert !OneUsable(Run(s, [e] + es));
  }

  lemma TwoUsableAreUnsafe(s: State, j: nat, k: nat)
    requires BothUsable(s, j, k) && j != k
    ensures !SafeAfter(s)
  {
    assert Possible(s, []) && NoValidations([]) && Run(s, []) == s;
    assert !OneUsable(s);
  }

  /** What becomes of a call that runs to its end: a usable token of its lineage, and everything else
      as it was but for the token it held. */
  function Finished(s: State, c: nat, n: nat): State
    requires c in s.calls && s.calls[c].jti in s.root
  {
    var held := s.calls[c].jti;
    s.(keys := (if s.calls[c].Validated? then s.keys - {held} else s.keys)[n := s.now + REFRESH_TTL],
       root := s.root[n := s.root[held]], calls := s.calls - {c})
  }

  lemma UnsafeOnceFinished(s: State, c: nat, n: nat)
    requires c in s.calls && s.calls[c].jti in s.root && n !in s.root
    requires !SafeAfter(Finished(s, c, n))
    ensures !SafeAfter(s)
  {
    var deleted := if s.calls[c].Validated? then Step(s, Del(c)) else s;
    assert deleted.calls - {c} == s.calls - {c};
    assert Step(deleted, Set(c, true, n)) == Finished(s, c, n);
    StepKeepsUnsafe(deleted, Set(c, true, n));
    if s.calls[c].Validated? {
      StepKeepsUnsafe(s, Del(c));
    }
  }

  lemma CallAndKeyAreUnsafe(s: State, c: nat, j: nat, r: nat)
    requires Wf(s) && CallOf(s, c, r) && FreeKey(s, j, r)
    ensures !SafeAfter(s)
  {
    var n := FreshId(s.root.Keys);
    assert s.calls[c] != Validated(j);
    assert BothUsable(Finished(s, c, n), n, j);
    TwoUsableAreUnsafe(Finished(s, c, n), n, j);
    UnsafeOnceFinished(s, c, n);
  }

  lemma TwoCallsAreUnsafe(s: State, c: nat, d: nat, r: nat)
    requires Wf(s) && CallOf(s, c, r) && CallOf(s, d, r) && c != d
    ensures !SafeAfter(s)
  {
    var n := FreshId(s.root.Keys);
    var s' := Finished(s, c, n);
    assert CallOf(s', d, r);
    forall b | b in s'.calls
      ensures s'.calls[b] != Validated(n)
    {
      assert s.calls[b].jti in s.root;
    }
    assert FreeKey(s', n, r);
    CallAndKeyAreUnsafe(s', d, n, r);
    UnsafeOnceFinished(s, c, n);
  }

  /** The promise is sure to be kept until the next validation exactly when each lineage has one call
      under way or one usable token that no call is about to delete, or neither, but never two. */
  lemma SafeIffOneCarrier(s: State)
    requires Wf(s)
    ensures SafeAfter(s) <==> forall r :: OneCarrier(s, r)
  {
    if OneCarrierEach(s) {
      forall es | Possible(s, es) && NoValidations(es)
        ensures OneUsable(Run(s, es))
      {
        CarriersStayUnvalidated(s, es);
      }
    } else {
      var r :| !OneCarrier(s, r);
      if c, d :| CallOf(s, c, r) && CallOf(s, d, r) && c != d {
        TwoCallsAreUnsafe(s, c, d, r);
      } else if j, k :| FreeKey(s, j, r) && FreeKey(s, k, r) && j != k {
        TwoUsableAreUnsafe(s, j, k);
      } else {
        var c, j :| CallOf(s, c, r) && FreeKey(s, j, r);
        CallAndKeyAreUnsafe(s, c, j, r);
      }
    }
  }

  ghost predicate AlwaysSafe(s: State, es: seq<Event>)
    requires Possible(s, es)
    decreases |es|
  {
    SafeAfter(s) && (es == [] || AlwaysSafe(Step(s, es[0]), es[1..]))
  }

  ghost predicate NoSecondValidation(s: State, es: seq<Event>)
    requires Possible(s, es)
    decreases |es|
  {
    es == [] || (!SecondValidation(s, es[0]) && NoSecondValidation(Step(s, es[0]), es[1..]))
  }

  lemma SecondValidationIsUnsafe(s: State, e: Event)
    requires Wf(s) && Enabled(s, e) && SecondValidation(s, e)
    ensures !SafeAfter(Step(s, e))
  {
    var d :| d in s.calls && s.calls[d] == Validated(e.jti);
    var s', r := Step(s, e), s.root[e.jti];
    assert CallOf(s', e.c, r) && CallOf(s', d, r);
    StepKeepsWf(s, e);
    TwoCallsAreUnsafe(s', e.c, d, r);
  }

  lemma {:induction false} AlwaysSafeIffFrom(s: State, es: seq<Event>)
    requires Wf(s) && Possible(s, es)
    ensures AlwaysSafe(s, es) <==> SafeAfter(s) && NoSecondValidation(s, es)
    decreases |es|
  {
    if es != [] && SafeAfter(s) {
      var e, s' := es[0], Step(s, es[0]);
      StepKeepsWf(s, e);
      AlwaysSafeIffFrom(s', es[1..]);
      if SecondValidation(s, e) {
        SecondValidationIsUnsafe(s, e);
      } else {
        SafeIffOneCarrier(s);
        forall r ensures OneCarrier(s', r) {
          StepKeepsCarrier(s, e, r);
        }
        SafeIffOneCarrier(s');
      }
    }
  }

  /** Of the tokens that descend from one login at most one is ever usable, and sure to stay the only
      one, in exactly those interleavings in which no call validates a token between another call's
      validation of it and that call's DEL. */
  lemma LineagesAreSafeIff(es: seq<Event>)
    requires Possible(START, es)
    ensures AlwaysSafe(START, es) <==> NoSecondValidation(START, es)
    ensures NoSecondValidation(START, es) ==> OneUsable(Run(START, es))
  {
    SafeIffOneCarrier(START);
    AlwaysSafeIffFrom(START, es);
    if NoSecondValidation(START, es) {
      AlwaysSafeEnds(START, es);
    }
  }

  lemma {:induction false} AlwaysSafeEnds(s: State, es: seq<Event>)
    requires Possible(s, es) && AlwaysSafe(s, es)
    ensures OneUsable(Run(s, es))
    decreases |es|
  {
    if es == [] {
      assert Possible(s, []) && NoValidations([]) && Run(s, []) == s;
    } else {
      AlwaysSafeEnds(Step(s, es[0]), es[1..]);
    }
  }

  /** Such a run: both calls find the token of one login before either deletes it, and each gets a new
      one. */
  lemma TwoRefreshesBothSucceed()
    ensures var es := [SignIn(0), Exists(1, 0), Exists(2, 0), Del(1), Del(2), Set(1, true, 1), Set(2, true, 2)];
            Possible(START, es) && BothUsable(Run(START, es), 1, 2)
  {
    var s1 := Step(START, SignIn(0));
    var s2 := Step(s1, Exists(1, 0));
    var s3 := Step(s2, Exists(2, 0));
    var s4 := Step(s3, Del(1));
    var s5 := Step(s4, Del(2));
    var s6 := Step(s5, Set(1, true, 1));
    var s7 := Step(s6, Set(2, true, 2));
    var late := [Del(1)] + ([Del(2)] + ([Set(1, true, 1)] + ([Set(2, true, 2)] + [])));
    RunCons(s6, Set(2, true, 2), []);
    RunCons(s5, Set(1, true, 1), [Set(2, true, 2)] + []);
    RunCons(s4, Del(2), [Set(1, true, 1)] + ([Set(2, true, 2)] + []));
    RunCons(s3, Del(1), [Del(2)] + ([Set(1, true, 1)] + ([Set(2, true, 2)] + [])));
    RunCons(s2, Exists(2, 0), late);
    RunCons(s1, Exists(1, 0), [Exists(2, 0)] + late);
    RunCons(START, SignIn(0), [Exists(1, 0)] + ([Exists(2, 0)] + late));
    assert [SignIn(0), Exists(1, 0), Exists(2, 0), Del(1), Del(2), Set(1, true, 1), Set(2, true, 2)]
        == [SignIn(0)] + ([Exists(1, 0)] + ([Exists(2, 0)] + late));
    assert BothUsable(s7, 1, 2);
  }
}
