/** Login as a whole: the guard, and the refresh token of a successful login. */
module AuthService {
  import opened Common
  import opened Lockout
  import opened RefreshTokens

  class AuthService {
    const guard: LoginGuard
    const tokens: TokenStore

    constructor (accounts: set<string>)
      ensures fresh(guard) && fresh(tokens) && guard.Valid() && guard.log == []
    {
      guard := new LoginGuard(accounts);
      tokens := new TokenStore();
    }

    /** `jti` is the fresh id of the token to issue. */
    method Login(account: string, correct: bool, jti: string, now: int)
      returns (outcome: Outcome, issued: Option<Token>)
      requires guard.Valid() && NoneLater(guard.log, now)
      modifies guard, tokens
      ensures guard.Valid() && guard.log == old(guard.log) + [Try(account, now, correct, outcome)]
      ensures outcome == Unknown <==> account !in guard.accounts
      ensures account in guard.accounts ==> outcome == Decide(GuardAfter(old(guard.log), account), now, correct).1
      ensures account in guard.accounts ==> (outcome == Refused <==> LockedBy(old(guard.log), account, now))
      ensures account in guard.accounts && outcome != Refused ==> (outcome == Accepted <==> correct)
      ensures issued == if outcome == Accepted then Some(Token(account, jti)) else None
      ensures tokens.State() == if issued.Some? then Issue(old(tokens.State()), issued.value, now) else old(tokens.State())
      ensures issued.Some? ==> Validate(tokens.State(), Some(Payload(issued.value, "refresh")), now) == issued
    {
      outcome := guard.Login(account, correct, now);
      issued := None;
      if outcome == Accepted {
        issued := Some(Token(account, jti));
        tokens.IssueRefreshToken(issued.value, now);
      }
    }
  }
}
