/**
 The login round trip over sequential runs: from the token that a callback
 returns, through the entry it is stored in, back to the user who logged in.
 */
module RoundTrip {
  import opened Common
  import opened OidcTypes
  import opened Caches
  import opened Cleanup
  import opened OidcStore
  import opened RenewalSpec
  import opened LoginSpec
  import opened Users
  import opened UserRuns
  import opened Handlers
  import opened RequestEffects
  import opened LoginFlow
  import opened LoginRuns

  /** The user that a bearer of these claims is resolved to: first the entry IDs, then the first user linked to one. */
  ghost predicate ResolvesTo(w: World, issuer: string, subject: string, login: string) {
    var k := First(w.ledger.users, ByOIDCID(EntryIDs(w.store, issuer, subject)));
    k < |w.ledger.users| && w.ledger.users[k].login == login
  }

  // Exactly when a first callback resolves, in any run.

  /** The IDs of the other entries for the issuer and subject of a claimed entry that its cleanup leaves. */
  ghost function RivalIDs(m: Entries, state: string, entry: OAuthData, now: Time): set<string> {
    set k | k in m && k != state && m[k].issuer == entry.issuer && m[k].subject == entry.subject
      && !Dropped(entry, m[k], now) :: m[k].id
  }

  lemma EntriesLeft(m: Entries, state: string, entry: OAuthData, now: Time)
    requires state in m && entry.TokenBearing()
    ensures EntryIDs(Cleaned(m[state := entry], entry, now), entry.issuer, entry.subject)
      == {entry.id} + RivalIDs(m, state, entry, now)
  {
    var n := Cleaned(m[state := entry], entry, now);
    var ids := EntryIDs(n, entry.issuer, entry.subject);
    assert state in n && n[state] == entry && entry.id in ids;
    forall id | id in RivalIDs(m, state, entry, now) ensures id in ids {
      var k :| k in m && k != state && m[k].issuer == entry.issuer && m[k].subject == entry.subject
        && !Dropped(entry, m[k], now) && m[k].id == id;
      assert k in n && n[k] == m[k];
    }
  }

  /** A user in the list is the first one linked to any of `ids` unless one before it is. */
  lemma FirstLinkedIs(us: seq<User>, k: nat, ids: set<string>)
    requires Distinct(us) && k < |us| && us[k].oidcID in ids
    ensures var j := First(us, ByOIDCID(ids));
      j <= k && (us[j].login == us[k].login <==> forall i :: 0 <= i < k ==> us[i].oidcID !in ids)
  {
    var j := First(us, ByOIDCID(ids));
    assert Matches(ByOIDCID(ids), us[k]);
    if j < k {
      assert us[j].login != us[k].login && us[j].oidcID in ids;
    }
  }

  /** The same in terms of another list with the same predecessors. */
  lemma FirstLinkedWas(us: seq<User>, was: seq<User>, k: nat, ids: set<string>)
    requires Distinct(us) && k < |us| && us[k].oidcID in ids && k <= |was|
    requires forall i :: 0 <= i < k ==> us[i] == was[i]
    ensures var j := First(us, ByOIDCID(ids));
      j < |us| && (us[j].login == us[k].login <==> forall i :: 0 <= i < k ==> was[i].oidcID !in ids)
  {
    FirstLinkedIs(us, k, ids);
    assert forall i :: 0 <= i < k ==> us[i].oidcID == was[i].oidcID;
  }

  /** The user that logs in keeps its place in the list, or is appended; the users before it are as they were. */
  lemma LoginKeepsPlace(us: seq<User>, r: Request)
    requires r.External? && r.authType.Oidc? && ExternalAccepted(us, r.login, r.hookOk)
    ensures var us', k := Handle(us, r), First(us, ByLogin(r.login));
      k < |us'| && us'[k].login == r.login && us'[k].oidcID == r.authID && forall i :: 0 <= i < k ==> us'[i] == us[i]
  {
    ExternalMeans(us, r);
  }

  /** A callback that got as far as saving the entry it claimed. */
  ghost predicate SavesClaim(w: World, e: Event, entry: OAuthData) {
    && e.Callback? && Enabled(w, e) && e.c.entrySaved && entry.TokenBearing()
    && ClaimedEntry(w.store, w.ledger.users, e.providers, e.endpoint, e.c) == Some(entry)
  }

  lemma ClaimResolvesExactlyWhen(w: World, e: Event, entry: OAuthData)
    requires IsSound(w) && SavesClaim(w, e, entry)
    ensures ResolvesTo(Next(w, e), entry.issuer, entry.subject, entry.userInfo.email)
      <==> forall i :: 0 <= i < First(w.ledger.users, ByLogin(entry.userInfo.email)) ==>
             w.ledger.users[i].oidcID != entry.id
               && w.ledger.users[i].oidcID !in RivalIDs(w.store, e.c.state, entry, e.c.cleanupAt)
  {
    var us, us', k := w.ledger.users, Next(w, e).ledger.users, First(w.ledger.users, ByLogin(entry.userInfo.email));
    ClaimIsExchanged(w, e);
    StepKeepsSound(w, e);
    LoginKeepsPlace(us, UserLogin(e.c, Exchanged(w, e).value));
    EntriesLeft(w.store, e.c.state, entry, e.c.cleanupAt);
    FirstLinkedWas(us', us, k, EntryIDs(Next(w, e).store, entry.issuer, entry.subject));
  }

  /**
   In any run, whatever saves fail in it, the identity of a claimed entry
   resolves to the user who logged in if and only if no user listed before is
   linked to that entry, or to another entry for its issuer and subject that
   the cleanup leaves.
   */
  lemma RoundTripExactlyWhen(start: World, es: seq<Event>, e: Event, entry: OAuthData)
    requires IsStart(start) && IsRun(start, es) && SavesClaim(After(start, es), e, entry)
    ensures var w := After(start, es);
      ResolvesTo(Next(w, e), entry.issuer, entry.subject, entry.userInfo.email)
      <==> forall i :: 0 <= i < First(w.ledger.users, ByLogin(entry.userInfo.email)) ==>
             w.ledger.users[i].oidcID != entry.id
               && w.ledger.users[i].oidcID !in RivalIDs(w.store, e.c.state, entry, e.c.cleanupAt)
  {
    RunKeepsSound(start, es);
    ClaimResolvesExactlyWhen(After(start, es), e, entry);
  }

  /**
   How a user comes to be linked to an entry that it did not claim: its login is refused
   when the user list cannot be saved, but the link stays.
   */
  lemma FailedUserSaveLeavesLink(w: World, e: Event)
    requires SoundUsers(w.ledger.users) && e.Callback? && Enabled(w, e)
    requires Exchanged(w, e).Some? && !e.c.userSaved.Saved?
    requires ExternalAccepted(w.ledger.users, Exchanged(w, e).value.userInfo.email, e.c.hookOk)
    ensures Next(w, e).store == w.store
    ensures LinkOf(Next(w, e).ledger.users, Exchanged(w, e).value.userInfo.email) == w.store[e.c.state].id
  {
    WithTokenKeeps(e.c.verifier, e.endpoint.value, e.c.exchange, w.store[e.c.state]);
    OidcLoginLinks(w.ledger.users, UserLogin(e.c, Exchanged(w, e).value));
  }

  // The round trip, when the user list can be saved.

  /**
   Any other token-bearing entry for this issuer and subject has the same email, or is
   superseded by the claimed one.
   */
  ghost predicate HasNoRival(m: Entries, state: string, entry: OAuthData) {
    forall k ::
      k in m && k != state && m[k].TokenBearing() && m[k].issuer == entry.issuer && m[k].subject == entry.subject ==>
        m[k].userInfo.email == entry.userInfo.email || Supersedes(entry, m[k])
  }

  lemma WithoutRivalResolves(w: World, e: Event, entry: OAuthData)
    requires Inv(w) && Assumed(w, e) && SavesClaim(w, e, entry) && HasNoRival(w.store, e.c.state, entry)
    ensures ResolvesTo(Next(w, e), entry.issuer, entry.subject, entry.userInfo.email)
  {
    var us, email := w.ledger.users, entry.userInfo.email;
    var rivals := RivalIDs(w.store, e.c.state, entry, e.c.cleanupAt);
    ClaimIsExchanged(w, e);
    assert EntryInv(w.ledger, w.store[e.c.state]);
    forall id | id in rivals ensures LinkedOnlyBy(us, id, "") || LinkedOnlyBy(us, id, email) {
      var k :| k in w.store && k != e.c.state && w.store[k].issuer == entry.issuer
        && w.store[k].subject == entry.subject
               && !Dropped(entry, w.store[k], e.c.cleanupAt) && w.store[k].id == id;
      assert EntryInv(w.ledger, w.store[k]);
    }
    ClaimResolvesExactlyWhen(w, e, entry);
  }

  /** No other entry bears the token of the claimed one. */
  ghost predicate IsUniqueToken(m: Entries, state: string, entry: OAuthData) {
    forall k :: k in m && k != state ==> m[k].token.accessToken != entry.token.accessToken
  }

  /** The claimed entry survives its own cleanup, and it is the only one with its token. */
  lemma TokenFindsTheClaim(m: Entries, state: string, entry: OAuthData, now: Time)
    requires state in m && m[state] == entry && entry.TokenBearing() && IsUniqueToken(m, state, entry)
    ensures state in Cleaned(m, entry, now)
    ensures IDTokensOf(Cleaned(m, entry, now), entry.token.accessToken) == {entry.token.idToken}
  {
    var n := Cleaned(m, entry, now);
    assert state in n && n[state] == entry;
    assert entry.token.idToken in IDTokensOf(n, entry.token.accessToken);
  }

  /**
   If the callback returns a token, that token finds one ID token, and the
   identity in that ID token resolves to the user whose login is the email in it.
   */
  ghost predicate RoundTrips(w: World, e: Event, entry: OAuthData, licenses: int)
    requires e.Callback?
  {
    var reply := ReplyTo(w.store, w.ledger.users, e.providers, licenses, e.endpoint, e.c);
    reply.Reply? && reply.authenticated ==>
      && IDTokensOf(Next(w, e).store, reply.token) == {entry.token.idToken}
      && IdentityIn(e.c.verifier, entry.token.idToken)
        == Some(ClaimedIdentity(entry.subject, entry.userInfo.email, entry.issuer))
      && ResolvesTo(Next(w, e), entry.issuer, entry.subject, entry.userInfo.email)
  }

  lemma WithoutRivalRoundTrips(w: World, e: Event, entry: OAuthData, licenses: int)
    requires Inv(w) && e.Callback? && Enabled(w, e) && Assumed(w, e)
    requires ClaimedEntry(w.store, w.ledger.users, e.providers, e.endpoint, e.c) == Some(entry)
    requires HasNoRival(w.store, e.c.state, entry) && IsUniqueToken(w.store, e.c.state, entry)
    ensures RoundTrips(w, e, entry, licenses)
  {
    ClaimIsExchanged(w, e);
    WithTokenKeeps(e.c.verifier, e.endpoint.value, e.c.exchange, w.store[e.c.state]);
    if e.c.entrySaved {
      TokenFindsTheClaim(w.store[e.c.state := entry], e.c.state, entry, e.c.cleanupAt);
      WithoutRivalResolves(w, e, entry);
    }
  }

  /** Issuer and subject determine the email. */
  function MailByIssuer(mailAt: (string, string) -> string): Identity -> bool {
    (d: Identity) => d.email == mailAt(d.issuer, d.subject)
  }

  lemma ClaimObeys(rule: Identity -> bool, w: World, e: Event, entry: OAuthData)
    requires e.Callback? && Obeys(rule, w, e)
    requires ClaimedEntry(w.store, w.ledger.users, e.providers, e.endpoint, e.c) == Some(entry)
    ensures rule(IdentityOf(entry))
  {
    ClaimIsExchanged(w, e);
  }

  /**
   A first callback that returns a token leads back to the user it logged in,
   when issuer and subject determine the email. Neither need the callback come
   in on the provider that the entry was made for, nor the entry be the newest.
   */
  lemma LoginRoundTrip(start: World, es: seq<Event>, mailAt: (string, string) -> string, e: Event, entry: OAuthData,
                       licenses: int)
    requires IsStart(start) && ValidRun(start, es) && RunObeys(MailByIssuer(mailAt), start, es)
    requires var w := After(start, es);
      e.Callback? && Enabled(w, e) && Assumed(w, e) && Obeys(MailByIssuer(mailAt), w, e)
      && ClaimedEntry(w.store, w.ledger.users, e.providers, e.endpoint, e.c) == Some(entry)
      && IsUniqueToken(w.store, e.c.state, entry)
    ensures RoundTrips(After(start, es), e, entry, licenses)
  {
    var w := After(start, es);
    RunKeepsInv(start, es);
    RunKeepsIdentities(MailByIssuer(mailAt), start, es);
    ClaimObeys(MailByIssuer(mailAt), w, e, entry);
    forall k | k in w.store && w.store[k].TokenBearing()
      ensures w.store[k].userInfo.email == mailAt(w.store[k].issuer, w.store[k].subject) {
      assert MailByIssuer(mailAt)(IdentityOf(w.store[k]));
    }
    assert MailByIssuer(mailAt)(IdentityOf(entry));
    WithoutRivalRoundTrips(w, e, entry, licenses);
  }

  /** The issuer is that of the provider which the entry was made for. */
  function IssuerByProvider(issuerOf: string -> string): Identity -> bool {
    (d: Identity) => d.issuer == issuerOf(d.providerID)
  }

  /** The claimed entry is newer than every other entry for its provider and subject. */
  ghost predicate IsNewestLogin(m: Entries, state: string, entry: OAuthData) {
    forall k :: k in m && k != state && m[k].oidcProviderID == entry.oidcProviderID
      && m[k].subject == entry.subject && m[k].TokenBearing()
      ==> m[k].createdAt < entry.createdAt
  }

  /** Emails may change when every provider has its own issuer and the claimed entry is the newest. */
  lemma NewestLoginRoundTrip(start: World, es: seq<Event>, issuerOf: string -> string, e: Event, entry: OAuthData,
                             licenses: int)
    requires IsStart(start) && ValidRun(start, es) && RunObeys(IssuerByProvider(issuerOf), start, es)
    requires forall p, q :: issuerOf(p) == issuerOf(q) ==> p == q
    requires var w := After(start, es);
      e.Callback? && Enabled(w, e) && Assumed(w, e) && Obeys(IssuerByProvider(issuerOf), w, e)
      && ClaimedEntry(w.store, w.ledger.users, e.providers, e.endpoint, e.c) == Some(entry)
      && IsNewestLogin(w.store, e.c.state, entry) && IsUniqueToken(w.store, e.c.state, entry)
    ensures RoundTrips(After(start, es), e, entry, licenses)
  {
    var w := After(start, es);
    RunKeepsInv(start, es);
    RunKeepsIdentities(IssuerByProvider(issuerOf), start, es);
    ClaimObeys(IssuerByProvider(issuerOf), w, e, entry);
    ClaimIsExchanged(w, e);
    forall k | k in w.store && k != e.c.state && w.store[k].TokenBearing() && w.store[k].issuer == entry.issuer
      && w.store[k].subject == entry.subject
      ensures Supersedes(entry, w.store[k]) {
      assert IssuerByProvider(issuerOf)(IdentityOf(w.store[k])) && IssuerByProvider(issuerOf)(IdentityOf(entry));
      assert w.store[k].id != w.store[e.c.state].id;
    }
    WithoutRivalRoundTrips(w, e, entry, licenses);
  }

  // The same for the objects that handle the requests.

  /** The entries that a restart finds in the store file. */
  function SavedEntries(image: Option<StoreImage>): Entries {
    if image.Some? then OrEmpty(image.value.oauth2Data) else map[]
  }

  /** The objects and their files hold the entries and users of the world. */
  ghost predicate Holding(ctx: Context, w: World)
    reads ctx, ctx.store, ctx.store.file, ctx.userStore, ctx.userStore.file
  {
    && ctx.store.oauth2Data == w.store && SavedEntries(ctx.store.file.content) == w.disk
    && ctx.userStore.users == w.ledger.users && ctx.userStore.file.content == w.ledger.file
  }

  lemma CallbackNext(w: World, e: Event)
    requires e.Callback?
    ensures var claimed := ClaimedEntry(w.store, w.ledger.users, e.providers, e.endpoint, e.c);
      && Next(w, e).store == EntriesAfter(w.store, w.ledger.users, e.providers, e.endpoint, e.c)
      && Next(w, e).disk == (if claimed.Some? && e.c.entrySaved then w.store[e.c.state := claimed.value] else w.disk)
      && Next(w, e).ledger.users == UsersAfter(w.store, w.ledger.users, e.providers, e.endpoint, e.c)
      && Next(w, e).ledger.file
         == UsersFileAfter(w.ledger.file, w.store, w.ledger.users, e.providers, e.endpoint, e.c)
  {
  }

  /** The callback handler takes the objects from one world to the next. */
  method CallbackStep(ctx: Context, c: CallbackRequest, discoveryCall: Call<Discovery>, jwksCall: Call<Jwks>,
                      ghost w: World, ghost e: Event)
    returns (reply: Reply)
    requires ctx.Wired() && Holding(ctx, w)
    requires e == Callback(ctx.providers, ctx.EndpointFor(c, discoveryCall, jwksCall), c)
    modifies ctx.store`oauth2Data, ctx.store`discoveryCache, ctx.store`jwksCache, ctx.store.file
    modifies ctx.userStore`users, ctx.userStore.file
    ensures Holding(ctx, Next(w, e))
    ensures reply == ReplyTo(w.store, w.ledger.users, ctx.providers, ctx.licenseUserCount, e.endpoint, c)
  {
    CallbackNext(w, e);
    reply := ctx.Callback(c, discoveryCall, jwksCall);
  }

  /** The user behind a JWT, for an object in the state of the world. */
  lemma UserBehindIs(ctx: Context, w: World, verifier: Verifier, jwt: string, d: ClaimedIdentity)
    requires Holding(ctx, w) && ResolvesTo(w, d.issuer, d.subject, d.email)
    requires jwt != "" && IdentityIn(verifier, jwt) == Some(d) && verifier.parse(jwt).value.kid != ctx.localKid
    ensures ctx.UserBehind(verifier, jwt).Ok? && ctx.UserBehind(verifier, jwt).value.login == d.email
  {
  }

  /**
   The two requests of a login, one after the other: the callback, and a request
   that bears the token it returned. When the round trip holds, the second one is
   made by the user whose login is the email in the ID token.
   */
  method LoginThenRequest(ctx: Context, c: CallbackRequest, discoveryCall: Call<Discovery>, jwksCall: Call<Jwks>,
                          kid: string, ghost w: World, ghost e: Event, ghost entry: OAuthData)
    returns (reply: Reply, user: Result<User, UserError>)
    requires ctx.Wired() && Holding(ctx, w)
    requires e == Callback(ctx.providers, ctx.EndpointFor(c, discoveryCall, jwksCall), c)
    requires RoundTrips(w, e, entry, ctx.licenseUserCount)
    requires kid != ctx.localKid && entry.token.idToken != ""
    requires c.verifier.parse(entry.token.idToken).Some? ==>
      c.verifier.parse(entry.token.idToken).value.kid != ctx.localKid
    modifies ctx.store`oauth2Data, ctx.store`discoveryCache, ctx.store`jwksCache, ctx.store.file
    modifies ctx.userStore`users, ctx.userStore.file
    ensures reply == ReplyTo(w.store, w.ledger.users, ctx.providers, ctx.licenseUserCount, e.endpoint, c)
    ensures reply.Reply? && reply.authenticated && reply.token != "" ==>
      user.Ok? && user.value.login == entry.userInfo.email
  {
    reply := CallbackStep(ctx, c, discoveryCall, jwksCall, w, e);
    if reply == Refused || !reply.authenticated || reply.token == "" {
      return reply, Err(NotFound);
    }
    user := ctx.BearerUser(reply.token, kid, c.verifier);
    UserBehindIs(ctx, Next(w, e), c.verifier, entry.token.idToken,
        ClaimedIdentity(entry.subject, entry.userInfo.email, entry.issuer));
  }

  // Exactly when an entry resolves to the user with its email, at any point of a run.

  lemma EntryResolvesExactlyWhen(w: World, mailAt: (string, string) -> string, k: string)
    requires Inv(w) && AllObey(MailByIssuer(mailAt), w.store)
    requires k in w.store && w.store[k].TokenBearing()
    ensures var e := w.store[k];
      ResolvesTo(w, e.issuer, e.subject, e.userInfo.email)
      <==> LinkOf(w.ledger.users, e.userInfo.email) in EntryIDs(w.store, e.issuer, e.subject)
  {
    var us, e := w.ledger.users, w.store[k];
    var ids := EntryIDs(w.store, e.issuer, e.subject);
    assert MailByIssuer(mailAt)(IdentityOf(e));
    forall i | 0 <= i < |us| && us[i].oidcID in ids ensures us[i].login == e.userInfo.email {
      var j :| j in w.store && w.store[j].issuer == e.issuer && w.store[j].subject == e.subject
        && w.store[j].id == us[i].oidcID;
      assert EntryInv(w.ledger, w.store[j]);
      assert w.store[j].TokenBearing() ==> MailByIssuer(mailAt)(IdentityOf(w.store[j]));
    }
    var j := First(us, ByLogin(e.userInfo.email));
    if LinkOf(us, e.userInfo.email) in ids {
      EntryIDsAreNotEmpty(w, e.issuer, e.subject);
      assert j < |us| && Matches(ByOIDCID(ids), us[j]);
    }
    if First(us, ByOIDCID(ids)) < |us| {
      FirstIsTheOne(us, ByLogin(e.userInfo.email), First(us, ByOIDCID(ids)));
    }
  }

  lemma EntryIDsAreNotEmpty(w: World, issuer: string, subject: string)
    requires Inv(w)
    ensures "" !in EntryIDs(w.store, issuer, subject)
  {
    forall k | k in w.store ensures w.store[k].id != "" {
      assert EntryInv(w.ledger, w.store[k]);
    }
  }

  /**
   A repeated callback changes nothing. The token that it returns is that of the
   entry under its state, whose identity resolves to the user with its email if and
   only if that user's last login was for an entry still stored for that identity.
   */
  lemma RepeatedCallbackResolvesExactlyWhen(start: World, es: seq<Event>, mailAt: (string, string) -> string, e: Event,
                                            licenses: int)
    requires IsStart(start) && ValidRun(start, es) && RunObeys(MailByIssuer(mailAt), start, es)
    requires e.Callback? && IsRepeated(After(start, es).store, e.providers, e.c)
    ensures var w, entry := After(start, es), After(start, es).store[e.c.state];
      var reply := ReplyTo(w.store, w.ledger.users, e.providers, licenses, e.endpoint, e.c);
      && Next(w, e) == w
      && (reply.Reply? && reply.authenticated ==> reply.token == entry.token.accessToken)
      && (ResolvesTo(w, entry.issuer, entry.subject, entry.userInfo.email)
          <==> LinkOf(w.ledger.users, entry.userInfo.email) in EntryIDs(w.store, entry.issuer, entry.subject))
  {
    RunKeepsInv(start, es);
    RunKeepsIdentities(MailByIssuer(mailAt), start, es);
    EntryResolvesExactlyWhen(After(start, es), mailAt, e.c.state);
  }

  // A login keeps resolving.

  /** The map has a token-bearing entry for identity `d` under the key, and no entry that supersedes it. */
  ghost predicate Holds(m: Entries, key: string, d: Identity) {
    && key in m && m[key].TokenBearing() && IdentityOf(m[key]) == d
    && forall j :: j in m ==> !Supersedes(m[j], m[key])
  }

  ghost predicate IsLinked(us: seq<User>, d: Identity) {
    Has(us, ByLogin(d.email)) && LinkOf(us, d.email) == d.id
  }

  /** In memory, and in the file while it may be reloaded, and the user is linked to it, also in users.json. */
  ghost predicate Persists(w: World, key: string, d: Identity) {
    && Holds(w.store, key, d) && (w.synced ==> Holds(w.disk, key, d))
    && IsLinked(w.ledger.users, d) && IsLinked(Reloaded(w.ledger.file), d)
  }

  /** The event neither logs anybody in with this email, or this provider and subject, nor removes the user. */
  ghost predicate LeavesAlone(w: World, e: Event, d: Identity) {
    && (e.UserRequest? ==> Spares(w.ledger.users, e.r, d.email))
    && (Exchanged(w, e).Some? ==>
          var u := Exchanged(w, e).value;
          u.userInfo.email != d.email && (u.oidcProviderID, u.subject) != (d.providerID, d.subject))
  }

  ghost predicate AllLeaveAlone(w: World, es: seq<Event>, d: Identity)
    decreases |es|
  {
    es == [] || (LeavesAlone(w, es[0], d) && AllLeaveAlone(Next(w, es[0]), es[1..], d))
  }

  lemma InsertHolds(m: Entries, key: string, d: Identity, k: string, e: OAuthData)
    requires Holds(m, key, d) && k != key
    requires e.userInfo.email != d.email && (e.oidcProviderID, e.subject) != (d.providerID, d.subject)
    ensures Holds(m[k := e], key, d)
  {
  }

  lemma CleanupHolds(m: Entries, key: string, d: Identity, k: string, now: Time)
    requires Holds(m, key, d) && k in m
    ensures Holds(Cleaned(m, m[k], now), key, d)
  {
  }

  lemma PassHolds(m: Entries, key: string, d: Identity, visits: seq<Visit>)
    requires Holds(m, key, d) && IsPass(m, {}, visits)
    ensures Holds(PassResult(m, visits), key, d)
  {
    PassOnlyRemoves(m, visits);
    UnsupersededSurvive(m, visits, key);
  }

  lemma RenewalHolds(m: Entries, key: string, d: Identity, providers: seq<OIDCProvider>, visits: seq<RenewalVisit>)
    requires Holds(m, key, d) && RangesOver(visits, m.Keys)
    ensures Holds(AfterVisits(m, providers, visits), key, d)
  {
    var n := AfterVisits(m, providers, visits);
    RenewalKeepsIdentities(m, providers, visits, key);
    forall j | j in n ensures !Supersedes(n[j], n[key]) {
      RenewalKeepsIdentities(m, providers, visits, j);
    }
  }

  /** Another login's claim and cleanup. */
  lemma ClaimLeaves(m: Entries, key: string, d: Identity, state: string, entry: OAuthData, now: Time)
    requires Holds(m, key, d) && state in m && !m[state].TokenBearing()
    requires entry.userInfo.email != d.email && (entry.oidcProviderID, entry.subject) != (d.providerID, d.subject)
    ensures Holds(m[state := entry], key, d) && Holds(Cleaned(m[state := entry], entry, now), key, d)
  {
    InsertHolds(m, key, d, state, entry);
    CleanupHolds(m[state := entry], key, d, state, now);
  }

  lemma CallbackPersists(w: World, e: Event, key: string, d: Identity)
    requires SoundUsers(w.ledger.users) && Enabled(w, e) && Assumed(w, e) && e.Callback?
    requires Persists(w, key, d) && LeavesAlone(w, e, d)
    ensures Persists(Next(w, e), key, d)
  {
    var claimed := ClaimedEntry(w.store, w.ledger.users, e.providers, e.endpoint, e.c);
    if claimed.None? {
      NoClaimNoChange(w, e);
    } else {
      ClaimIsExchanged(w, e);
      ClaimLeaves(w.store, key, d, e.c.state, claimed.value, e.c.cleanupAt);
      SparedKeepsLink(w.ledger.users, UserLogin(e.c, Exchanged(w, e).value), d.email);
    }
  }

  lemma RedirectPersists(w: World, e: Event, key: string, d: Identity)
    requires Enabled(w, e) && e.Redirect? && d.subject != "" && d.email != "" && key in w.ledger.usedKeys
    requires Persists(w, key, d)
    ensures Persists(Next(w, e), key, d)
  {
    InsertHolds(w.store, key, d, e.key, PendingEntry(e.id, e.providerID, e.at));
  }

  lemma PassPersists(w: World, e: Event, key: string, d: Identity)
    requires Enabled(w, e) && (e.CleansAll? || e.Renews?) && Persists(w, key, d)
    ensures Persists(Next(w, e), key, d)
  {
    if e.CleansAll? {
      PassHolds(w.store, key, d, e.cleanups);
    } else {
      RenewalHolds(w.store, key, d, e.providers, e.visits);
    }
  }

  lemma RequestPersists(w: World, e: Event, key: string, d: Identity)
    requires IsSound(w) && Enabled(w, e) && e.UserRequest? && Persists(w, key, d) && LeavesAlone(w, e, d)
    ensures Persists(Next(w, e), key, d)
  {
    var us := w.ledger.users;
    SparedKeepsLink(us, e.r, d.email);
    FileIsReached(w.ledger.file, us, e.r, true, e.recordSaved, e.passwordSaved);
    if Ops(us, e.r) != [] {
      FirstOpSpares(us, e.r, d.email);
    }
  }

  lemma StepPersists(w: World, e: Event, key: string, d: Identity)
    requires Inv(w) && Enabled(w, e) && Assumed(w, e) && d.subject != ""
    requires Persists(w, key, d) && LeavesAlone(w, e, d)
    ensures Persists(Next(w, e), key, d)
  {
    assert EntryInv(w.ledger, w.store[key]);
    match e
    case UserRequest(_, _, _) => RequestPersists(w, e, key, d);
    case Callback(_, _, _) => CallbackPersists(w, e, key, d);
    case Restart =>
    case Redirect(_, _, _, _, _) => RedirectPersists(w, e, key, d);
    case _ => PassPersists(w, e, key, d);
  }

  lemma {:induction false} RunPersists(w: World, es: seq<Event>, key: string, d: Identity)
    requires Inv(w) && ValidRun(w, es) && AllLeaveAlone(w, es, d) && d.subject != "" && Persists(w, key, d)
    ensures Inv(After(w, es)) && Persists(After(w, es), key, d)
    decreases |es|
  {
    if es != [] {
      StepPersists(w, es[0], key, d);
      StepKeepsInv(w, es[0]);
      RunPersists(Next(w, es[0]), es[1..], key, d);
    }
  }

  /** Where a first callback leaves things, when nothing supersedes the entry it claims. */
  lemma ClaimPersists(w: World, e: Event, entry: OAuthData)
    requires SoundUsers(w.ledger.users) && SavesClaim(w, e, entry)
    requires forall j :: j in w.store && j != e.c.state ==> !Supersedes(w.store[j], entry)
    ensures Persists(Next(w, e), e.c.state, IdentityOf(entry))
  {
    var u := Exchanged(w, e).value;
    ClaimIsExchanged(w, e);
    OidcLoginLinks(w.ledger.users, UserLogin(e.c, u));
    var stored := w.store[e.c.state := entry];
    assert Holds(stored, e.c.state, IdentityOf(entry));
    CleanupHolds(stored, e.c.state, IdentityOf(entry), e.c.state, e.c.cleanupAt);
  }

  /**
   After a first callback whose entry nothing supersedes, the login keeps
   resolving: in every continuation without another first login of its email,
   or of its provider and subject, and without a removal of the user, the entry
   survives all cleanups, renewals and restarts, and resolves to its user.
   */
  lemma LoginKeepsResolving(start: World, es: seq<Event>, mailAt: (string, string) -> string, e: Event,
                            entry: OAuthData, later: seq<Event>)
    requires IsStart(start) && ValidRun(start, es) && RunObeys(MailByIssuer(mailAt), start, es)
    requires var w := After(start, es);
      && SavesClaim(w, e, entry) && Assumed(w, e) && Obeys(MailByIssuer(mailAt), w, e) && entry.subject != ""
      && forall j :: j in w.store && j != e.c.state ==> !Supersedes(w.store[j], entry)
    requires var w' := Next(After(start, es), e);
      ValidRun(w', later) && RunObeys(MailByIssuer(mailAt), w', later) && AllLeaveAlone(w', later, IdentityOf(entry))
    ensures var w := After(Next(After(start, es), e), later);
      && e.c.state in w.store && w.store[e.c.state].TokenBearing()
        && IdentityOf(w.store[e.c.state]) == IdentityOf(entry)
      && ResolvesTo(w, entry.issuer, entry.subject, entry.userInfo.email)
  {
    var w, w' := After(start, es), Next(After(start, es), e);
    RunKeepsInv(start, es);
    RunKeepsIdentities(MailByIssuer(mailAt), start, es);
    StepKeepsIdentities(MailByIssuer(mailAt), w, e);
    ClaimPersists(w, e, entry);
    StepKeepsInv(w, e);
    PersistingResolves(w', mailAt, later, e.c.state, IdentityOf(entry));
  }

  lemma PersistingResolves(w: World, mailAt: (string, string) -> string, later: seq<Event>, key: string, d: Identity)
    requires Inv(w) && AllObey(MailByIssuer(mailAt), w.store) && AllObey(MailByIssuer(mailAt), w.disk)
    requires Persists(w, key, d) && d.subject != ""
    requires ValidRun(w, later) && RunObeys(MailByIssuer(mailAt), w, later) && AllLeaveAlone(w, later, d)
    ensures Persists(After(w, later), key, d) && ResolvesTo(After(w, later), d.issuer, d.subject, d.email)
  {
    RunPersists(w, later, key, d);
    RunKeepsIdentities(MailByIssuer(mailAt), w, later);
    EntryResolvesExactlyWhen(After(w, later), mailAt, key);
    assert After(w, later).store[key].id in EntryIDs(After(w, later).store, d.issuer, d.subject);
  }
}
