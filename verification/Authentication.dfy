/** Local authentication, its handler, and the handler that renews all OIDC tokens. */
module Authentication {
  import opened Common
  import opened Users
  import opened UserRuns
  import opened Attempts
  import opened Handlers
  import opened RequestEffects
  import opened RenewalSpec
  import opened Renewal

  datatype LoginRequest = LoginRequest(login: string, password: string, factorName: string, factorCode: string)

  datatype LoginResponse = LoginResponse(authenticated: bool, token: string, mfaRequired: bool, factors: seq<string>)

  /** Password comparison, TOTP verification and token signing; None is an error. */
  datatype Crypto = Crypto(
    accepts: (string, string) -> bool,
    verify: (string, string) -> Option<bool>,
    sign: (string, string) -> Option<string>
  )

  predicate IsNamed(u: User, r: LoginRequest, i: int)
  {
    r.factorName != "" && 0 <= i < |u.factors| && u.factors[i].name == r.factorName
  }

  function Verdict(c: Crypto, u: User, r: LoginRequest, i: int): Option<bool>
    requires 0 <= i < |u.factors|
  {
    c.verify(u.factors[i].secret, r.factorCode)
  }

  /** No second factor is needed, or one of the given name verifies. */
  ghost predicate FactorsAccept(c: Crypto, u: User, r: LoginRequest) {
    u.factors == [] || exists i :: IsNamed(u, r, i) && Verdict(c, u, r, i) == Some(true)
  }

  /** Some factor of the given name cannot be verified, or a token that is due cannot be signed. */
  ghost predicate Breaks(c: Crypto, u: User, r: LoginRequest) {
    if u.factors == [] then c.sign(u.login, u.role).None?
    else
      exists i ::
        && IsNamed(u, r, i)
        && (Verdict(c, u, r, i).None? || (Verdict(c, u, r, i) == Some(true) && c.sign(u.login, u.role).None?))
  }

  /**
   How an attempt to log in ends: with an error, with the question for a second factor, or
   with a user logged in or not.
   */
  datatype Outcome = Broken | FactorsAsked(names: seq<string>) | LoggedIn(user: User) | Rejected

  /**
   A token is due exactly when the password matches, the user is not suspended, and no
   factor is set up or one of the given name verifies.
   */
  ghost function OutcomeFor(us: seq<User>, c: Crypto, r: LoginRequest): Outcome {
    var k := FirstAccepted(us, r.login, r.password, c.accepts);
    if k == |us| || us[k].suspended then Rejected
    else if Breaks(c, us[k], r) then Broken
    else if FactorsAccept(c, us[k], r) then LoggedIn(us[k])
    else if r.factorName == "" then FactorsAsked(FactorNames(us[k].factors))
    else Rejected
  }

  lemma OnlyOneMayLogIn(us: seq<User>, c: Crypto, r: LoginRequest, u: User)
    requires Distinct(us) && u in us && u.login == r.login && c.accepts(u.password, r.password)
    ensures var k := FirstAccepted(us, r.login, r.password, c.accepts);
      k < |us| && us[k] == u
  {
    var i :| 0 <= i < |us| && us[i] == u;
    var k := FirstAccepted(us, r.login, r.password, c.accepts);
    assert k <= i;
    assert us[k].login == us[i].login;
  }

  /**
   With distinct logins a user is logged in exactly with the right password, unless suspended,
   and with a valid code for the named factor if any factor is set up.
   */
  lemma LogsInExactlyWhen(us: seq<User>, c: Crypto, r: LoginRequest, u: User)
    requires Distinct(us)
    ensures OutcomeFor(us, c, r) == LoggedIn(u)
      <==> && u in us && u.login == r.login && c.accepts(u.password, r.password) && !u.suspended
           && c.sign(u.login, u.role).Some?
           && (u.factors == []
               || (&& r.factorName != ""
                   && (exists f :: f in u.factors && f.name == r.factorName
                                   && c.verify(f.secret, r.factorCode) == Some(true))
                   && forall f :: f in u.factors && f.name == r.factorName ==> c.verify(f.secret, r.factorCode).Some?))
  {
    if u in us && u.login == r.login && c.accepts(u.password, r.password) {
      OnlyOneMayLogIn(us, c, r, u);
    }
    if u.factors != [] {
      FactorsAre(c, u, r);
    }
  }

  /** And it is turned away exactly with a wrong login or password, when suspended, or with a wrong code. */
  lemma RejectedExactlyWhen(us: seq<User>, c: Crypto, r: LoginRequest)
    requires Distinct(us)
    ensures OutcomeFor(us, c, r) == Rejected
      <==> forall u :: u in us && u.login == r.login && c.accepts(u.password, r.password) ==>
        || u.suspended
        || (&& u.factors != [] && r.factorName != ""
            && forall f :: f in u.factors && f.name == r.factorName ==>
              var ok := c.verify(f.secret, r.factorCode);
              ok.Some? && !ok.value)
  {
    var k := FirstAccepted(us, r.login, r.password, c.accepts);
    forall u | u in us && u.login == r.login && c.accepts(u.password, r.password) ensures k < |us| && us[k] == u {
      OnlyOneMayLogIn(us, c, r, u);
    }
    if k < |us| && us[k].factors != [] {
      FactorsAre(c, us[k], r);
    }
  }

  /** It is asked for a factor exactly when one is set up and none is named; the answer lists their names. */
  lemma FactorsAskedExactlyWhen(us: seq<User>, c: Crypto, r: LoginRequest, names: seq<string>)
    requires Distinct(us)
    ensures OutcomeFor(us, c, r) == FactorsAsked(names)
      <==> exists u ::
        && u in us && u.login == r.login && c.accepts(u.password, r.password) && !u.suspended
        && u.factors != [] && r.factorName == ""
        && |names| == |u.factors| && forall i :: 0 <= i < |names| ==> names[i] == u.factors[i].name
  {
    var k := FirstAccepted(us, r.login, r.password, c.accepts);
    forall u | u in us && u.login == r.login && c.accepts(u.password, r.password) ensures k < |us| && us[k] == u {
      OnlyOneMayLogIn(us, c, r, u);
    }
    if k < |us| && us[k].factors != [] {
      FactorsAre(c, us[k], r);
      assert |names| == |us[k].factors| && (forall i :: 0 <= i < |names| ==> names[i] == us[k].factors[i].name) ==>
        names == FactorNames(us[k].factors);
    }
  }

  lemma FactorsAre(c: Crypto, u: User, r: LoginRequest)
    requires u.factors != []
    ensures FactorsAccept(c, u, r)
      <==> r.factorName != "" && exists f :: f in u.factors && f.name == r.factorName
                                             && c.verify(f.secret, r.factorCode) == Some(true)
    ensures Breaks(c, u, r)
      <==> r.factorName != "" && exists f :: f in u.factors && f.name == r.factorName
                                             && var ok := c.verify(f.secret, r.factorCode);
                                             ok.None? || (ok.value && c.sign(u.login, u.role).None?)
  {
    forall f | f in u.factors && f.name == r.factorName && r.factorName != ""
      ensures exists i :: IsNamed(u, r, i) && u.factors[i] == f {
      var i :| 0 <= i < |u.factors| && u.factors[i] == f;
      assert IsNamed(u, r, i);
    }
  }

  method Authenticate(r: LoginRequest, store: UserStore, c: Crypto)
    returns (response: LoginResponse, user: User, failed: bool)
    ensures !failed && response.authenticated ==>
      && user in store.users && user.login == r.login && c.accepts(user.password, r.password) && !user.suspended
      && c.sign(user.login, user.role) == Some(response.token)
      && (user.factors == []
          || (r.factorName != ""
              && exists i :: 0 <= i < |user.factors| && user.factors[i].name == r.factorName
                             && c.verify(user.factors[i].secret, r.factorCode) == Some(true)))
    ensures !failed && !response.authenticated ==> response.token == ""
    ensures failed <==> OutcomeFor(store.users, c, r).Broken?
    ensures match OutcomeFor(store.users, c, r)
      case Broken => true
      case FactorsAsked(names) => response == LoginResponse(false, "", true, names)
      case Rejected => response == LoginResponse(false, "", false, [])
      case LoggedIn(u) => user == u && u in store.users && c.sign(u.login, u.role).Some?
                          && response == LoginResponse(true, c.sign(u.login, u.role).value, false, [])
  {
    response := LoginResponse(false, "", false, []);
    failed := false;
    var auth;
    user, auth := store.AuthUser(r.login, r.password, c.accepts);
    if auth && !user.suspended {
      if |user.factors| == 0 {
        var token := c.sign(user.login, user.role);
        if token.None? {
          return response, user, true;
        }
        response := response.(authenticated := true, token := token.value);
      } else if r.factorName == "" {
        response := response.(mfaRequired := true);
        for i := 0 to |user.factors|
          invariant response == LoginResponse(false, "", true, FactorNames(user.factors[..i]))
        {
          assert user.factors[..i + 1][..i] == user.factors[..i];
          response := response.(factors := response.factors + [user.factors[i].name]);
        }
        assert user.factors[..|user.factors|] == user.factors;
      } else {
        for i := 0 to |user.factors|
          invariant !response.mfaRequired && response.factors == []
          invariant forall j :: 0 <= j < i && IsNamed(user, r, j) ==>
            Verdict(c, user, r, j).Some?
            && (Verdict(c, user, r, j) == Some(true) ==> c.sign(user.login, user.role).Some?)
          invariant response.authenticated
            <==> exists j :: 0 <= j < i && IsNamed(user, r, j) && Verdict(c, user, r, j) == Some(true)
          invariant if response.authenticated
                    then c.sign(user.login, user.role) == Some(response.token) else response.token == ""
        {
          if user.factors[i].name == r.factorName {
            assert IsNamed(user, r, i);
            var ok := c.verify(user.factors[i].secret, r.factorCode);
            if ok.None? {
              return response, user, true;
            }
            if ok.value {
              var token := c.sign(user.login, user.role);
              if token.None? {
                return response, user, true;
              }
              response := response.(authenticated := true, token := token.value);
            }
          }
        }
      }
    }
  }

  function FactorNames(factors: seq<Factor>): (names: seq<string>)
    ensures |names| == |factors| && forall i :: 0 <= i < |factors| ==> names[i] == factors[i].name
  {
    if factors == [] then [] else FactorNames(factors[..|factors| - 1]) + [factors[|factors| - 1].name]
  }

  /** Writing back the authenticated user with a new login time is what a local login does to the list. */
  lemma LoginUpdates(us: seq<User>, user: User, now: Time)
    requires user in us
    ensures Distinct(us) ==> Updated(us, user.(lastLogin := now)) == Handle(us, LocalLogin(user.login, now))
  {
    if Distinct(us) {
      var k :| 0 <= k < |us| && us[k] == user;
      FirstIsTheOne(us, ByLogin(user.login), k);
      UpdatesWrite(us, LocalLogin(user.login, now), k);
    }
  }

  /** The request gets past the throttle and logs a user in. */
  ghost predicate LogsIn(disabled: bool, a: AttemptMap, us: seq<User>, c: Crypto, r: LoginRequest, now: Time) {
    !disabled && !TooMany(Of(a, r.login), now) && OutcomeFor(us, c, r).LoggedIn?
  }

  class AuthHandler {
    const store: UserStore
    const attempts: LoginAttempts
    var localAuthDisabled: bool

    constructor (store: UserStore, attempts: LoginAttempts, localAuthDisabled: bool)
      ensures this.store == store && this.attempts == attempts && this.localAuthDisabled == localAuthDisabled
    {
      this.store, this.attempts, this.localAuthDisabled := store, attempts, localAuthDisabled;
    }

    /**
     One login request from check to record: a locked-out login is refused without
     looking at the password, a failure is recorded, a success clears the login.
     */
    method Post(r: LoginRequest, c: Crypto, now: Time, saved: SaveOutcome)
      returns (status: int, response: Option<LoginResponse>)
      modifies attempts, store`users, store.file
      ensures localAuthDisabled ==> status == 403 && attempts.attempts == old(attempts.attempts)
      ensures !localAuthDisabled && TooMany(Of(old(attempts.attempts), r.login), now) ==>
        status == 429 && attempts.attempts == Checked(old(attempts.attempts), r.login, now)
      ensures !localAuthDisabled && !TooMany(Of(old(attempts.attempts), r.login), now) ==>
        match OutcomeFor(old(store.users), c, r)
        case Broken => status == 400 && attempts.attempts == old(attempts.attempts)
        case FactorsAsked(_) => status == 200 && attempts.attempts == old(attempts.attempts)
        case Rejected => status == 401 && attempts.attempts == Recorded(old(attempts.attempts), r.login, now)
        case LoggedIn(u) =>
          && status == 200 && attempts.attempts == Cleared(old(attempts.attempts), r.login)
          && store.users == Updated(old(store.users), u.(lastLogin := now))
          && (Distinct(old(store.users)) ==> store.users == Handle(old(store.users), LocalLogin(r.login, now)))
          && store.file.content == store.FileAfter(old(store.file.content), store.users, saved)
      ensures LogsIn(localAuthDisabled, old(attempts.attempts), old(store.users), c, r, now)
              || (store.users == old(store.users) && store.file.content == old(store.file.content))
      ensures LogsIn(localAuthDisabled, old(attempts.attempts), old(store.users), c, r, now)
        <==> response.Some? && response.value.authenticated
      ensures response.Some? <==> status in {200, 401}
      ensures response.Some? && response.value.authenticated ==>
        && status == 200
        && exists u ::
          && u in old(store.users) && u.login == r.login && c.accepts(u.password, r.password) && !u.suspended
          && c.sign(u.login, u.role) == Some(response.value.token)
          && (u.factors != [] ==>
                exists f :: f in u.factors && f.name == r.factorName && c.verify(f.secret, r.factorCode) == Some(true))
      ensures response.Some? && !response.value.authenticated ==>
        response.value.token == "" && (status == 200 <==> response.value.mfaRequired)
      ensures (forall u :: u in old(store.users) && u.login == r.login ==>
                 u.suspended || !c.accepts(u.password, r.password)) ==>
        status in {401, 403, 429} && store.users == old(store.users)
    {
      if localAuthDisabled {
        return 403, None;
      }
      var tooManyLogins := attempts.CheckTooManyLogins(r.login, now);
      if tooManyLogins {
        return 429, None;
      }
      var login, user, failed := Authenticate(r, store, c);
      if failed {
        return 400, None;
      }
      if login.mfaRequired {
        return 200, Some(login);
      } else if login.authenticated {
        attempts.ClearAttemptsForLogin(r.login);
        LoginUpdates(store.users, user, now);
        var _ := store.UpdateUser(user.(lastLogin := now), saved);
        return 200, Some(login);
      } else {
        attempts.RecordAttempt(r.login, now);
        return 401, Some(login);
      }
    }
  }

  // The handler that renews all OIDC tokens.

  /** The user list after the connections of the users in `list` were marked as disabled, one after the other. */
  function Disabled(us: seq<User>, list: seq<User>): seq<User> {
    if list == [] then us
    else Updated(Disabled(us, list[..|list| - 1]), Marked(list[|list| - 1]))
  }

  function Marked(u: User): User { u.(connectionsDisabledOnAuthFailure := true) }

  lemma {:induction false} DisabledKeepsLogins(us: seq<User>, list: seq<User>)
    ensures Logins(Disabled(us, list)) == Logins(us)
  {
    if list != [] {
      DisabledKeepsLogins(us, list[..|list| - 1]);
      UpdateKeepsLogins(Disabled(us, list[..|list| - 1]), Marked(list[|list| - 1]));
    }
  }

  lemma DisabledNext(us: seq<User>, list: seq<User>, i: nat)
    requires i < |list|
    ensures Disabled(us, list[..i + 1]) == Updated(Disabled(us, list[..i]), Marked(list[i]))
    ensures Has(Disabled(us, list[..i]), ByLogin(list[i].login)) <==> Has(us, ByLogin(list[i].login))
  {
    assert list[..i + 1][..i] == list[..i];
    DisabledKeepsLogins(us, list[..i]);
    assert |us| == |Logins(us)| == |Disabled(us, list[..i])|;
    SameLoginsSameAnswer(Disabled(us, list[..i]), us, list[i].login);
  }

  /** The content of users.json after the users in `list` were marked, one after the other. */
  function FileDisabled(was: Option<seq<User>>, us: seq<User>, list: seq<User>, autoSave: bool,
                        saved: nat -> SaveOutcome)
    : Option<seq<User>>
  {
    if list == [] then was
    else
      var front, n := list[..|list| - 1], |list| - 1;
      FileOf(FileDisabled(was, us, front, autoSave, saved), Disabled(us, front), Update(Marked(list[n])), autoSave,
          saved(n))
  }

  lemma FileDisabledNext(was: Option<seq<User>>, us: seq<User>, list: seq<User>, autoSave: bool,
                         saved: nat -> SaveOutcome, i: nat)
    requires i < |list|
    ensures FileDisabled(was, us, list[..i + 1], autoSave, saved)
         == if Has(us, ByLogin(list[i].login)) && autoSave && !saved(i).WriteFailed?
            then Some(Disabled(us, list[..i + 1])) else FileDisabled(was, us, list[..i], autoSave, saved)
  {
    assert list[..i + 1][..i] == list[..i];
    DisabledNext(us, list, i);
  }

  /** Marking the last user of the list replaces one record. */
  lemma DisabledLast(us: seq<User>, list: seq<User>, k: nat)
    requires Distinct(us) && list != [] && k < |us| && list[|list| - 1] == us[k]
    ensures var now := Disabled(us, list[..|list| - 1]);
      |now| == |us| && First(now, ByLogin(us[k].login)) == k && now[k].login == us[k].login
      && Disabled(us, list) == now[k := Marked(us[k]).(password := now[k].password)]
  {
    var front := list[..|list| - 1];
    DisabledKeepsLogins(us, front);
    assert |us| == |Logins(us)| == |Disabled(us, front)|;
    SameLoginsSameAnswer(Disabled(us, front), us, us[k].login);
    FirstIsTheOne(us, ByLogin(us[k].login), k);
  }

  /** Exactly the users in the list are marked, and nothing else of them changes. */
  lemma {:induction false} DisabledMarksExactly(us: seq<User>, list: seq<User>, i: nat)
    requires Distinct(us) && (forall j :: 0 <= j < |list| ==> list[j] in us) && i < |us|
    ensures |Disabled(us, list)| == |us|
    ensures Disabled(us, list)[i]
         == if us[i] in list then us[i].(connectionsDisabledOnAuthFailure := true) else us[i]
  {
    if list != [] {
      var front, last := list[..|list| - 1], list[|list| - 1];
      var k :| 0 <= k < |us| && us[k] == last;
      DisabledLast(us, list, k);
      DisabledMarksExactly(us, front, i);
      DisabledMarksExactly(us, front, k);
      assert list == front + [last];
    }
  }

  lemma MarkingIsARequest(now: seq<User>, login: string)
    requires Has(now, ByLogin(login))
    ensures var k := First(now, ByLogin(login));
      Handle(now, DisableConnections(login)) == Updated(now, Marked(Blank(now[k]))) == now[k := Marked(now[k])]
  {
    HandleMeans(now, DisableConnections(login));
    assert now[First(now, ByLogin(login))].login == login;
  }

  /** Each marking is what a request to disable the connections of that login does to the list. */
  lemma {:induction false} DisablingIsARun(us: seq<User>, list: seq<User>)
    requires Distinct(us) && forall j :: 0 <= j < |list| ==> list[j] in us
    ensures Disabled(us, list) == HandleAll(us, DisableRequests(list))
  {
    if list != [] {
      var front, last := list[..|list| - 1], list[|list| - 1];
      DisablingIsARun(us, front);
      HandleAllThen(us, DisableRequests(front), DisableConnections(last.login));
      var k :| 0 <= k < |us| && us[k] == last;
      DisabledLast(us, list, k);
      DisabledMarksExactly(us, front, k);
      MarkingIsARequest(Disabled(us, front), last.login);
    }
  }

  function DisableRequests(list: seq<User>): seq<Request> {
    if list == [] then [] else DisableRequests(list[..|list| - 1]) + [DisableConnections(list[|list| - 1].login)]
  }

  lemma {:induction false} HandleAllThen(us: seq<User>, rs: seq<Request>, r: Request)
    ensures HandleAll(us, rs + [r]) == Handle(HandleAll(us, rs), r)
    decreases |rs|
  {
    if rs == [] {
      assert ([r])[1..] == [] && HandleAll(Handle(us, r), []) == Handle(us, r);
    } else {
      assert (rs + [r])[1..] == rs[1..] + [r];
      HandleAllThen(Handle(us, rs[0]), rs[1..], r);
    }
  }

  /** The loop over the users to disable ends here: at the hook, or at the update of the record. */
  predicate DisableFails(us: seq<User>, u: User, hookOk: bool, autoSave: bool, saved: SaveOutcome) {
    !hookOk || !Has(us, ByLogin(u.login)) || (autoSave && !saved.Saved?)
  }

  /** The first index from `i` on at which the loop ends. */
  function StopsAt(us: seq<User>, list: seq<User>, hookOk: nat -> bool, autoSave: bool, saved: nat -> SaveOutcome,
                   i: nat): (n: nat)
    requires i <= |list|
    ensures i <= n <= |list|
    ensures n < |list| ==> DisableFails(us, list[n], hookOk(n), autoSave, saved(n))
    ensures forall j :: i <= j < n ==> !DisableFails(us, list[j], hookOk(j), autoSave, saved(j))
    decreases |list| - i
  {
    if i == |list| || DisableFails(us, list[i], hookOk(i), autoSave, saved(i)) then i
    else StopsAt(us, list, hookOk, autoSave, saved, i + 1)
  }

  /** It marks all the users of a pass exactly when no hook and no save fails. */
  lemma MarksAllExactlyWhen(us: seq<User>, list: seq<User>, hookOk: nat -> bool, autoSave: bool,
                            saved: nat -> SaveOutcome)
    requires forall j :: 0 <= j < |list| ==> list[j] in us
    ensures StopsAt(us, list, hookOk, autoSave, saved, 0) == |list|
      <==> forall j :: 0 <= j < |list| ==> hookOk(j) && (autoSave ==> saved(j) == Saved)
  {
    forall j | 0 <= j < |list| ensures Has(us, ByLogin(list[j].login)) {
      var i :| 0 <= i < |us| && us[i] == list[j];
      assert Matches(ByLogin(list[j].login), us[i]);
    }
  }

  class RenewTokensHandler {
    const renewal: Renewal

    constructor (renewal: Renewal)
      ensures this.renewal == renewal
    {
      this.renewal := renewal;
    }

    /**
     Renews every entry, then marks the users of the entries that gave up; the first hook or
     save that fails ends the request.
     */
    method Post(env: string -> Env, hookOk: nat -> bool, saved: nat -> SaveOutcome)
      returns (status: int, ghost disabled: seq<User>, ghost visits: seq<RenewalVisit>)
      modifies renewal.store`oauth2Data, renewal.store`discoveryCache, renewal.store.file, renewal`refreshLog
      modifies renewal.userStore`users, renewal.userStore.file
      ensures var p := Pass(Forced, old(renewal.store.discoveryCache), old(renewal.store.oauth2Data),
          renewal.providers, env);
        && RangesOver(visits, p.m.Keys) && Answered(p, visits)
        && renewal.store.oauth2Data == AfterVisits(p.m, p.providers, visits)
        && renewal.store.discoveryCache == CacheAt(p, visits)
        && renewal.refreshLog == old(renewal.refreshLog) + RefreshedKeys(p.m, p.providers, visits)
        && renewal.FileEntries() == FileAt(p, old(renewal.FileEntries()), visits)
      ensures var list := DisabledUsers(old(renewal.userStore.users), old(renewal.store.oauth2Data),
          renewal.providers, visits);
        DisablingDone(list, hookOk, saved, status, disabled)
    {
      var disabledUsers;
      disabledUsers, visits := renewal.RenewAllOIDCConnections(env);
      status, disabled := DisableUsers(disabledUsers, hookOk, saved);
    }

    /**
     The users were marked one after the other, up to the first one whose hook or
     update fails. One whose record cannot be saved is marked in memory all the same.
     */
    twostate predicate DisablingDone(list: seq<User>, hookOk: nat -> bool, saved: nat -> SaveOutcome, status: int,
                                     disabled: seq<User>)
      reads this, renewal, renewal.userStore, renewal.userStore.file
    {
      var us := old(renewal.userStore.users);
      var n := StopsAt(us, list, hookOk, renewal.userStore.autoSave, saved, 0);
      && status == (if n == |list| then 200 else 400)
      && disabled == (if n < |list| && hookOk(n) then list[..n + 1] else list[..n])
      && renewal.userStore.users == Disabled(us, disabled)
      && renewal.userStore.file.content
         == FileDisabled(old(renewal.userStore.file.content), us, disabled, renewal.userStore.autoSave, saved)
    }

    /** The loop that marks the users. */
    method DisableUsers(list: seq<User>, hookOk: nat -> bool, saved: nat -> SaveOutcome)
      returns (status: int, ghost disabled: seq<User>)
      modifies renewal.userStore`users, renewal.userStore.file
      ensures DisablingDone(list, hookOk, saved, status, disabled)
    {
      disabled := [];
      ghost var us, auto := renewal.userStore.users, renewal.userStore.autoSave;
      for i := 0 to |list|
        invariant disabled == list[..i]
        invariant StopsAt(us, list, hookOk, auto, saved, 0) == StopsAt(us, list, hookOk, auto, saved, i)
        invariant renewal.userStore.users == Disabled(us, disabled)
        invariant renewal.userStore.file.content
          == FileDisabled(old(renewal.userStore.file.content), us, disabled, auto, saved)
      {
        if !hookOk(i) {
          return 400, disabled;
        }
        var user := list[i].(connectionsDisabledOnAuthFailure := true);
        DisabledNext(us, list, i);
        FileDisabledNext(old(renewal.userStore.file.content), us, list, auto, saved, i);
        var error := renewal.userStore.UpdateUser(user, saved(i));
        disabled := list[..i + 1];
        if error.Some? {
          return 400, disabled;
        }
      }
      status := 200;
    }
  }
}
