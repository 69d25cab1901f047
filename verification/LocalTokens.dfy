/** From a local login to the user of a later request: the token in the response leads back to who logged in. */
module LocalTokens {
  import opened Common
  import opened LoginSpec
  import opened LoginFlow
  import opened Users
  import opened UserRuns
  import opened Authentication

  /** Tokens that the server signs verify, under its own key, and name their user as the subject. */
  ghost predicate Trusts(v: Verifier, c: Crypto, kid: string) {
    forall login, role :: c.sign(login, role).Some? ==> NamesSubject(v, c.sign(login, role).value, kid, login)
  }

  predicate NamesSubject(v: Verifier, token: string, kid: string, login: string) {
    && token != "" && v.parse(token).Some?
    && var claims := v.parse(token).value;
    claims.sub == Some(login) && claims.iss.Some? && claims.kid == kid
  }

  /** The list after a login, at the user who logged in. */
  lemma LoggedInUserStays(us: seq<User>, u: User, now: Time)
    requires Distinct(us) && u in us
    ensures var us' := Updated(us, u.(lastLogin := now));
      && Has(us', ByLogin(u.login)) && us'[First(us', ByLogin(u.login))] == u.(lastLogin := now)
      && forall other :: other in us && other != u ==> other in us'
  {
    var k :| 0 <= k < |us| && us[k] == u;
    FirstIsTheOne(us, ByLogin(u.login), k);
    var us' := Updated(us, u.(lastLogin := now));
    assert us' == us[k := u.(lastLogin := now)];
    FirstIsTheOne(us', ByLogin(u.login), k);
    forall other | other in us && other != u ensures other in us' {
      var i :| 0 <= i < |us| && us[i] == other;
      assert us'[i] == other;
    }
  }

  /**
   A login, and then a request with the token it returned: the request is made by the user
   with the login and the password that were given, whom nobody has suspended.
   */
  method LoginThenRequest(handler: AuthHandler, ctx: Context, r: LoginRequest, c: Crypto, v: Verifier, now: Time,
                          saved: SaveOutcome)
    returns (response: Option<LoginResponse>, user: Result<User, UserError>)
    requires handler.store == ctx.userStore && Distinct(ctx.userStore.users) && Trusts(v, c, ctx.localKid)
    modifies handler.attempts, ctx.userStore`users, ctx.userStore.file
    ensures response.Some? && response.value.authenticated ==>
      exists u ::
        && u in old(ctx.userStore.users) && u.login == r.login && c.accepts(u.password, r.password) && !u.suspended
        && user == Ok(u.(lastLogin := now, password := ""))
  {
    user := Err(NotFound);
    var status;
    status, response := handler.Post(r, c, now, saved);
    if response.Some? && response.value.authenticated {
      ghost var u := OutcomeFor(old(ctx.userStore.users), c, r).user;
      LoggedInUserStays(old(ctx.userStore.users), u, now);
      assert NamesSubject(v, response.value.token, ctx.localKid, u.login);
      user := ctx.BearerUser(response.value.token, ctx.localKid, v);
    }
  }
}
