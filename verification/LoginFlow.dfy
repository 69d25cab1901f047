/** The OIDC branches of the authentication handlers, and how a bearer token leads back to a user. */
module LoginFlow {
  import opened Common
  import opened OidcTypes
  import opened Caches
  import opened Cleanup
  import opened OidcStore
  import opened LoginSpec
  import opened RenewalSpec
  import opened Users
  import opened Handlers

  datatype Reply = Refused | Reply(authenticated: bool, suspended: bool, noLicense: bool, token: string)

  /** A callback, with the outcomes of everything the handler calls out to. */
  datatype CallbackRequest = CallbackRequest(
    providerID: string,
    code: string,
    state: string,
    verifier: Verifier,
    exchange: Option<Exchange>,
    hookOk: bool,
    loginAt: Time,
    newUserID: string,
    userSaved: SaveOutcome,
    entrySaved: bool,
    cleanupAt: Time,
    configSaved: bool
  )

  predicate HasProvider(providers: seq<OIDCProvider>, id: string) {
    ProviderOf(providers, id).Some?
  }

  /** The entry that a callback claims: pending, and found under the state of the request. */
  predicate IsClaim(store: Entries, providers: seq<OIDCProvider>, c: CallbackRequest) {
    && HasProvider(providers, c.providerID)
    && c.code != "" && c.state != "" && c.state in store
    && store[c.state].token.accessToken == ""
  }

  /** The callback comes in under the state of an entry that bears no token yet. */
  predicate IsFirst(store: Entries, c: CallbackRequest) {
    c.state in store && store[c.state].token.accessToken == ""
  }

  /** Discovery gives a provider of the right ID a token endpoint, and its keys are found. */
  ghost predicate EndpointIsFound(providers: seq<OIDCProvider>, c: CallbackRequest, discoveryCache: Cache<Discovery>,
                                  discoveryCall: Call<Discovery>, jwksCache: Cache<Jwks>, jwksCall: Call<Jwks>) {
    exists p, d ::
      && p in providers && p.id == c.providerID
      && Answer(discoveryCache, discoveryCall.(uri := p.discoveryURI)) == Some(d)
      && Answer(jwksCache, jwksCall.(uri := d.jwksURI)).Some? && d.tokenEndpoint != ""
  }

  /**
   The reply is for the user whose login is the email in the ID token, and who is linked to
   the entry `e`. The email is the email claim, or without one an address in preferred_username.
   */
  ghost predicate LogsInFor(e: OAuthData, users: seq<User>, c: CallbackRequest, reply: Reply) {
    && c.exchange.Some? && c.verifier.parse(c.exchange.value.token.idToken).Some?
    && var claims := c.verifier.parse(c.exchange.value.token.idToken).value;
    exists u ::
      && u in users && u.oidcID == e.id && u.lastLogin == c.loginAt && !u.connectionsDisabledOnAuthFailure
      && (if claims.email.Some? then claims.email == Some(u.login)
          else claims.preferredUsername == Some(u.login) && c.verifier.isAddress(u.login))
      && reply == (if u.suspended then Reply(false, true, false, "")
                   else Reply(true, false, false, c.exchange.value.token.accessToken))
  }

  function UserLogin(c: CallbackRequest, e: OAuthData): Request {
    External(e.userInfo.email, Oidc, e.id, c.hookOk, c.loginAt, c.newUserID)
  }

  /**
   What becomes of an exchanged entry: its user must be accepted and saved, and it takes
   over the user's suspension.
   */
  ghost function Accepted(users: seq<User>, c: CallbackRequest, e: OAuthData): Option<OAuthData> {
    if !c.userSaved.Saved? || !ExternalAccepted(users, e.userInfo.email, c.hookOk) then None
    else
      var users' := Handle(users, UserLogin(c, e));
      var k := First(users', ByLogin(e.userInfo.email));
      Some(e.(suspended := k < |users'| && users'[k].suspended))
  }

  /**
   What a callback exchanges its code for, if it gets that far; `endpoint` is the token
   endpoint that discovery found.
   */
  function ExchangedEntry(store: Entries, providers: seq<OIDCProvider>, endpoint: Option<string>, c: CallbackRequest)
    : Option<OAuthData>
  {
    if !IsClaim(store, providers, c) || endpoint.None? then None
    else WithToken(c.verifier, endpoint.value, c.exchange, store[c.state])
  }

  /** The claimed entry that a callback stores, when it gets that far. */
  ghost function ClaimedEntry(store: Entries, users: seq<User>, providers: seq<OIDCProvider>, endpoint: Option<string>,
                              c: CallbackRequest)
    : Option<OAuthData>
  {
    match ExchangedEntry(store, providers, endpoint, c)
    case None => None
    case Some(e) => Accepted(users, c, e)
  }

  /** The user list after a callback: it changes even when saving it, or anything later, fails. */
  ghost function UsersAfter(store: Entries, users: seq<User>, providers: seq<OIDCProvider>, endpoint: Option<string>,
                            c: CallbackRequest)
    : seq<User>
  {
    match ExchangedEntry(store, providers, endpoint, c)
    case None => users
    case Some(e) => Handle(users, UserLogin(c, e))
  }

  /** And the content of users.json. */
  function UsersFileAfter(was: Option<seq<User>>, store: Entries, users: seq<User>, providers: seq<OIDCProvider>,
                          endpoint: Option<string>, c: CallbackRequest): Option<seq<User>>
  {
    match ExchangedEntry(store, providers, endpoint, c)
    case None => was
    case Some(e) => FileHandled(was, users, UserLogin(c, e), true, c.userSaved, c.userSaved)
  }

  ghost function EntriesWith(store: Entries, c: CallbackRequest, claimed: Option<OAuthData>): Entries {
    match claimed
    case None => store
    case Some(e) =>
      if c.entrySaved then Cleaned(store[c.state := e], e, c.cleanupAt) else store[c.state := e]
  }

  ghost function EntriesAfter(store: Entries, users: seq<User>, providers: seq<OIDCProvider>, endpoint: Option<string>,
                              c: CallbackRequest)
    : Entries
  {
    EntriesWith(store, c, ClaimedEntry(store, users, providers, endpoint, c))
  }

  ghost function ReplyWith(c: CallbackRequest, claimed: Option<OAuthData>): Reply {
    match claimed
    case None => Refused
    case Some(e) =>
      if !c.entrySaved || !c.configSaved then Refused
      else if e.suspended then Reply(false, true, false, "")
      else Reply(true, false, false, e.token.accessToken)
  }

  /** The request repeats a callback: the entry under its state bears a token already. */
  predicate IsRepeated(store: Entries, providers: seq<OIDCProvider>, c: CallbackRequest) {
    HasProvider(providers, c.providerID) && c.code != "" && c.state != "" && c.state in store
      && store[c.state].TokenBearing()
  }

  /** A repeated callback returns the token of its entry again; a first one returns the token it just got. */
  ghost function ReplyTo(store: Entries, users: seq<User>, providers: seq<OIDCProvider>, licenses: int,
                         endpoint: Option<string>, c: CallbackRequest)
    : Reply
  {
    if IsRepeated(store, providers, c) then
      var e := store[c.state];
      if e.suspended then Reply(false, true, false, "")
      else if licenses >= |users| then Reply(false, false, true, "")
      else Reply(true, false, false, e.token.accessToken)
    else ReplyWith(c, ClaimedEntry(store, users, providers, endpoint, c))
  }

  /** A callback for an unknown provider, without a code, or under a state without an entry is refused. */
  lemma UnknownCallbackIsRefused(store: Entries, users: seq<User>, providers: seq<OIDCProvider>, licenses: int,
                                 endpoint: Option<string>, c: CallbackRequest)
    requires (forall p :: p in providers ==> p.id != c.providerID) || c.code == "" || c.state == "" || c.state !in store
    ensures ReplyTo(store, users, providers, licenses, endpoint, c) == Refused
    ensures EntriesAfter(store, users, providers, endpoint, c) == store
    ensures UsersAfter(store, users, providers, endpoint, c) == users
  {
    ProviderIsFirst(providers, c.providerID);
  }

  /** One under the state of an entry with a token says what has become of its user, and changes nothing. */
  lemma RepeatedCallbackReplies(store: Entries, users: seq<User>, providers: seq<OIDCProvider>, licenses: int,
                                endpoint: Option<string>, c: CallbackRequest)
    requires (exists p :: p in providers && p.id == c.providerID) && c.code != "" && c.state != "" && c.state in store
    requires store[c.state].token.accessToken != ""
    ensures ReplyTo(store, users, providers, licenses, endpoint, c)
      == if store[c.state].suspended then Reply(false, true, false, "")
         else if licenses >= |users| then Reply(false, false, true, "")
         else Reply(true, false, false, store[c.state].token.accessToken)
    ensures EntriesAfter(store, users, providers, endpoint, c) == store
    ensures UsersAfter(store, users, providers, endpoint, c) == users
  {
    ProviderIsFirst(providers, c.providerID);
  }

  /**
   A first callback gets a reply exactly when discovery found a token endpoint, the exchange
   gives an entry, the hook accepts its user, and everything is saved. The user then has the
   email of that entry as its login and is linked to it, and gets the token unless suspended.
   */
  lemma FirstCallbackReplies(store: Entries, users: seq<User>, providers: seq<OIDCProvider>, licenses: int,
                             endpoint: Option<string>, c: CallbackRequest)
    requires (exists p :: p in providers && p.id == c.providerID) && c.code != "" && c.state != "" && c.state in store
    requires store[c.state].token.accessToken == ""
    ensures var reply := ReplyTo(store, users, providers, licenses, endpoint, c);
      reply.Reply?
      <==> && endpoint.Some? && WithToken(c.verifier, endpoint.value, c.exchange, store[c.state]).Some?
           && var e := WithToken(c.verifier, endpoint.value, c.exchange, store[c.state]).value;
           && ExternalAccepted(users, e.userInfo.email, c.hookOk)
           && c.userSaved.Saved? && c.entrySaved && c.configSaved
    ensures var reply := ReplyTo(store, users, providers, licenses, endpoint, c);
      reply.Reply? ==> LogsInFor(store[c.state], UsersAfter(store, users, providers, endpoint, c), c, reply)
  {
    ProviderIsFirst(providers, c.providerID);
    if endpoint.Some? {
      ClaimLogsIn(users, c, endpoint.value, store[c.state]);
    }
  }

  /** Its entry then bears the token, and whether its user is suspended. */
  lemma FirstCallbackStores(store: Entries, users: seq<User>, providers: seq<OIDCProvider>, licenses: int,
                            endpoint: Option<string>, c: CallbackRequest)
    requires IsFirst(store, c) && ReplyTo(store, users, providers, licenses, endpoint, c).Reply?
    ensures var reply := ReplyTo(store, users, providers, licenses, endpoint, c);
      var after := EntriesAfter(store, users, providers, endpoint, c);
      && endpoint.Some? && WithToken(c.verifier, endpoint.value, c.exchange, store[c.state]).Some?
      && var e := WithToken(c.verifier, endpoint.value, c.exchange, store[c.state]).value;
      e.TokenBearing() ==> c.state in after && after[c.state] == e.(suspended := reply.suspended)
  {
  }

  /** It cleans up: older entries of its identity or email go, and so do other pending ones younger than 600 s. */
  lemma FirstCallbackCleansUp(store: Entries, users: seq<User>, providers: seq<OIDCProvider>, licenses: int,
                              endpoint: Option<string>, c: CallbackRequest, k: string)
    requires IsFirst(store, c) && ReplyTo(store, users, providers, licenses, endpoint, c).Reply?
    requires k in store && k != c.state
    ensures var after := EntriesAfter(store, users, providers, endpoint, c);
      && endpoint.Some? && WithToken(c.verifier, endpoint.value, c.exchange, store[c.state]).Some?
      && var e := WithToken(c.verifier, endpoint.value, c.exchange, store[c.state]).value;
      && (k !in after <==>
            || (&& store[k].createdAt < store[c.state].createdAt && store[k].id != store[c.state].id
                && ((store[k].oidcProviderID == store[c.state].oidcProviderID && store[k].subject == e.subject)
                    || store[k].userInfo.email == e.userInfo.email))
            || (store[k].token.accessToken == "" && c.cleanupAt - store[k].createdAt < 600_000_000_000))
      && (k in after ==> after[k] == store[k])
  {
    if endpoint.Some? {
      WithTokenKeeps(c.verifier, endpoint.value, c.exchange, store[c.state]);
    }
  }

  lemma ClaimLogsIn(users: seq<User>, c: CallbackRequest, endpoint: string, pending: OAuthData)
    ensures var updated := WithToken(c.verifier, endpoint, c.exchange, pending);
      updated.Some? && ReplyWith(c, Accepted(users, c, updated.value)).Reply? ==>
        && endpoint != ""
        && LogsInFor(pending, Handle(users, UserLogin(c, updated.value)), c,
                     ReplyWith(c, Accepted(users, c, updated.value)))
  {
    var updated := WithToken(c.verifier, endpoint, c.exchange, pending);
    WithTokenKeeps(c.verifier, endpoint, c.exchange, pending);
    if updated.Some? && ReplyWith(c, Accepted(users, c, updated.value)).Reply? {
      ExternalWrites(users, UserLogin(c, updated.value));
    }
  }

  /** The IDs of the entries for an issuer and subject. */
  function EntryIDs(store: Entries, iss: string, sub: string): set<string> {
    set k | k in store && store[k].issuer == iss && store[k].subject == sub :: store[k].id
  }

  /** The ID tokens that the bearer of an access token may be given: all those stored next to it. */
  function IDTokensOf(store: Entries, accessToken: string): set<string> {
    set k | k in store && store[k].token.accessToken == accessToken :: store[k].token.idToken
  }

  class Context {
    const store: Store
    const userStore: UserStore
    const handlers: UserHandlers
    var providers: seq<OIDCProvider>
    var licenseUserCount: int
    const localKid: string

    constructor (store: Store, userStore: UserStore, handlers: UserHandlers, providers: seq<OIDCProvider>,
                 licenses: int, localKid: string)
      ensures this.store == store && this.userStore == userStore && this.handlers == handlers
      ensures this.providers == providers && licenseUserCount == licenses && this.localKid == localKid
    {
      this.store, this.userStore, this.handlers := store, userStore, handlers;
      this.providers, licenseUserCount, this.localKid := providers, licenses, localKid;
    }

    /**
     The handlers work on this context's user store, which saves by itself, as every store
     that NewUserStore opens does.
     */
    predicate Wired()
      reads this
    {
      handlers.store == userStore && userStore.autoSave
    }

    /** The redirect to a provider stores a pending entry under a new random state. */
    method Redirect(providerID: string, call: Call<Discovery>, state: string, id: string, now: Time, saved: bool)
      returns (ok: bool)
      modifies store`oauth2Data, store`discoveryCache, store.file
      ensures var provider := ProviderOf(providers, providerID);
        var found := provider.Some? && Answer(old(store.discoveryCache),
            call.(uri := provider.value.discoveryURI)).Some?;
        && (ok <==> found && saved)
        && store.oauth2Data
           == (if found then old(store.oauth2Data)[state := PendingEntry(id, providerID, now)]
               else old(store.oauth2Data))
        && store.discoveryCache
           == (if provider.Some?
               then CacheAfter(old(store.discoveryCache), DISCOVERY_TTL, call.(uri := provider.value.discoveryURI))
               else old(store.discoveryCache))
        && store.file.content == if ok then Some(store.Image()) else old(store.file.content)
      ensures ok ==>
        && (exists p :: p in providers && p.id == providerID
                        && Answer(old(store.discoveryCache), call.(uri := p.discoveryURI)).Some?)
        && state in store.oauth2Data
        && var e := store.oauth2Data[state];
        && e.id == id && e.oidcProviderID == providerID && e.createdAt == now
        && e.token.accessToken == "" && e.subject == "" && e.issuer == "" && e.userInfo.email == ""
        && !e.suspended && !e.renewalFailed && e.renewalRetries == 0
    {
      ProviderIsFirst(providers, providerID);
      for i := 0 to |providers|
        invariant ProviderOf(providers, providerID) == ProviderOf(providers[i..], providerID)
        invariant unchanged(store) && unchanged(store.file)
      {
        if providerID == providers[i].id {
          var discovery := store.GetDiscoveryURI(call.(uri := providers[i].discoveryURI));
          if discovery.Err? {
            return false;
          }
          ok := store.SaveOAuth2Data(PendingEntry(id, providers[i].id, now), state, saved);
          return ok;
        }
      }
      return false;
    }

    /** The token endpoint that a callback will use, if both of its cached lookups answer. */
    ghost function EndpointFor(c: CallbackRequest, discoveryCall: Call<Discovery>, jwksCall: Call<Jwks>): Option<string>
      reads this, store
    {
      match ProviderOf(providers, c.providerID)
      case None => None
      case Some(provider) =>
        match Answer(store.discoveryCache, discoveryCall.(uri := provider.discoveryURI))
        case None => None
        case Some(discovery) =>
          if Answer(store.jwksCache, jwksCall.(uri := discovery.jwksURI)).Some?
          then Some(discovery.tokenEndpoint) else None
    }

    /** The discovery cache after a callback, which looks the document up once it has found a pending entry. */
    ghost function DiscoveryCacheAfter(c: CallbackRequest, discoveryCall: Call<Discovery>): Cache<Discovery>
      reads this, store
    {
      if IsClaim(store.oauth2Data, providers, c)
      then CacheAfter(store.discoveryCache, DISCOVERY_TTL,
          discoveryCall.(uri := ProviderOf(providers, c.providerID).value.discoveryURI))
      else store.discoveryCache
    }

    /** The key cache, which it consults once it has the discovery document. */
    ghost function JwksCacheAfter(c: CallbackRequest, discoveryCall: Call<Discovery>, jwksCall: Call<Jwks>): Cache<Jwks>
      reads this, store
    {
      if IsClaim(store.oauth2Data, providers, c) then
        match Answer(store.discoveryCache,
            discoveryCall.(uri := ProviderOf(providers, c.providerID).value.discoveryURI))
        case None => store.jwksCache
        case Some(discovery) => CacheAfter(store.jwksCache, JWKS_TTL, jwksCall.(uri := discovery.jwksURI))
      else store.jwksCache
    }

    /**
     What a callback has done: entries, users, caches, reply, and the files; the store is
     saved before the cleanup.
     */
    twostate predicate CallbackDone(c: CallbackRequest, discoveryCall: Call<Discovery>, jwksCall: Call<Jwks>,
                                    reply: Reply)
      reads this, store, store.file, userStore, userStore.file
    {
      var endpoint := old(EndpointFor(c, discoveryCall, jwksCall));
      var entries, users := old(store.oauth2Data), old(userStore.users);
      var claimed := ClaimedEntry(entries, users, providers, endpoint, c);
      && store.oauth2Data == EntriesAfter(entries, users, providers, endpoint, c)
      && store.discoveryCache == old(DiscoveryCacheAfter(c, discoveryCall))
      && store.jwksCache == old(JwksCacheAfter(c, discoveryCall, jwksCall))
      && userStore.users == UsersAfter(entries, users, providers, endpoint, c)
      && userStore.file.content == UsersFileAfter(old(userStore.file.content), entries, users, providers, endpoint, c)
      && reply == ReplyTo(entries, users, providers, licenseUserCount, endpoint, c)
      && store.file.content == if claimed.Some? && c.entrySaved
                               then Some(store.Image().(oauth2Data := Some(entries[c.state := claimed.value])))
                               else old(store.file.content)
    }

    method Callback(c: CallbackRequest, discoveryCall: Call<Discovery>, jwksCall: Call<Jwks>) returns (reply: Reply)
      requires Wired()
      modifies store`oauth2Data, store`discoveryCache, store`jwksCache, store.file, userStore`users, userStore.file
      ensures CallbackDone(c, discoveryCall, jwksCall, reply)
      ensures IsFirst(old(store.oauth2Data), c) && reply.Reply? ==>
        && EndpointIsFound(providers, c, old(store.discoveryCache), discoveryCall, old(store.jwksCache), jwksCall)
        && LogsInFor(old(store.oauth2Data)[c.state], userStore.users, c, reply)
    {
      for i := 0 to |providers|
        invariant c.code == "" || ProviderOf(providers, c.providerID) == ProviderOf(providers[i..], c.providerID)
        invariant unchanged(store) && unchanged(store.file) && unchanged(userStore) && unchanged(userStore.file)
      {
        if c.providerID == providers[i].id && c.code != "" {
          if c.state == "" || c.state !in store.oauth2Data {
            return Refused;
          }
          var oauth2data := store.oauth2Data[c.state];
          if oauth2data.token.accessToken != "" {
            if oauth2data.suspended {
              return Reply(false, true, false, "");
            } else if licenseUserCount >= |userStore.users| {
              return Reply(false, false, true, "");
            } else {
              return Reply(true, false, false, oauth2data.token.accessToken);
            }
          }
          reply := ClaimPending(providers[i], c, discoveryCall, jwksCall);
          return reply;
        }
      }
      return Refused;
    }

    /** The branch without a token: exchange the code for one. */
    method ClaimPending(provider: OIDCProvider, c: CallbackRequest, discoveryCall: Call<Discovery>,
                        jwksCall: Call<Jwks>)
      returns (reply: Reply)
      requires Wired() && ProviderOf(providers, c.providerID) == Some(provider)
      requires IsClaim(store.oauth2Data, providers, c)
      modifies store`oauth2Data, store`discoveryCache, store`jwksCache, store.file, userStore`users, userStore.file
      ensures CallbackDone(c, discoveryCall, jwksCall, reply)
      ensures reply.Reply? ==>
        && EndpointIsFound(providers, c, old(store.discoveryCache), discoveryCall, old(store.jwksCache), jwksCall)
        && LogsInFor(old(store.oauth2Data)[c.state], userStore.users, c, reply)
    {
      var endpoint := FindEndpoint(provider, c, discoveryCall, jwksCall);
      if endpoint.None? {
        return Refused;
      }
      var updated := WithToken(c.verifier, endpoint.value, c.exchange, store.oauth2Data[c.state]);
      if updated.None? {
        return Refused;
      }
      ClaimLogsIn(old(userStore.users), c, endpoint.value, store.oauth2Data[c.state]);
      reply := StoreClaim(updated.value, c);
    }

    /** Its two cached lookups: the discovery document, and then the keys that it refers to. */
    method FindEndpoint(provider: OIDCProvider, c: CallbackRequest, discoveryCall: Call<Discovery>,
                        jwksCall: Call<Jwks>)
      returns (endpoint: Option<string>)
      requires ProviderOf(providers, c.providerID) == Some(provider) && IsClaim(store.oauth2Data, providers, c)
      modifies store`discoveryCache, store`jwksCache
      ensures endpoint == old(EndpointFor(c, discoveryCall, jwksCall))
      ensures store.discoveryCache == old(DiscoveryCacheAfter(c, discoveryCall))
      ensures store.jwksCache == old(JwksCacheAfter(c, discoveryCall, jwksCall))
      ensures endpoint.Some? && endpoint.value != "" ==>
        EndpointIsFound(providers, c, old(store.discoveryCache), discoveryCall, old(store.jwksCache), jwksCall)
    {
      ProviderIsFirst(providers, c.providerID);
      var discovery := store.GetDiscoveryURI(discoveryCall.(uri := provider.discoveryURI));
      if discovery.Err? {
        return None;
      }
      var jwks := store.GetJwks(jwksCall.(uri := discovery.value.jwksURI));
      return if jwks.Ok? then Some(discovery.value.tokenEndpoint) else None;
    }

    /** The rest of that branch: link the user, save the entry, clean up after it. */
    method StoreClaim(updated: OAuthData, c: CallbackRequest) returns (reply: Reply)
      requires Wired()
      modifies store`oauth2Data, store.file, userStore`users, userStore.file
      ensures userStore.users == Handle(old(userStore.users), UserLogin(c, updated))
      ensures userStore.file.content
           == FileHandled(old(userStore.file.content), old(userStore.users), UserLogin(c, updated), true,
               c.userSaved, c.userSaved)
      ensures var claimed := Accepted(old(userStore.users), c, updated);
        && store.oauth2Data == EntriesWith(old(store.oauth2Data), c, claimed)
        && reply == ReplyWith(c, claimed)
        && store.file.content
           == if claimed.Some? && c.entrySaved
              then Some(store.Image().(oauth2Data := Some(old(store.oauth2Data)[c.state := claimed.value])))
              else old(store.file.content)
    {
      var entry := updated;
      var user := handlers.AddOrModifyExternalUser(entry.userInfo.email, Oidc, entry.id, c.hookOk, c.loginAt,
          c.newUserID, c.userSaved);
      if user.Err? {
        return Refused;
      }
      entry := entry.(suspended := user.value.suspended);
      var saved := store.SaveOAuth2Data(entry, c.state, c.entrySaved);
      if !saved {
        return Refused;
      }
      var _ := store.CleanupOAuth2Data(entry, c.cleanupAt);
      if !c.configSaved {
        return Refused;
      }
      return if entry.suspended then Reply(false, true, false, "")
        else Reply(true, false, false, entry.token.accessToken);
    }

    /**
     The ID token that stands for an access token: entries are looked at in any
     order, and the last match wins.
     */
    method TokenToParse(tokenString: string, kid: string) returns (tokenToParse: string)
      ensures kid == localKid ==> tokenToParse == tokenString
      ensures kid != localKid && IDTokensOf(store.oauth2Data, tokenString) == {} ==> tokenToParse == ""
      ensures kid != localKid && IDTokensOf(store.oauth2Data, tokenString) != {} ==>
        tokenToParse in IDTokensOf(store.oauth2Data, tokenString)
    {
      if kid == localKid {
        return tokenString;
      }
      tokenToParse := "";
      var unvisited := store.oauth2Data.Keys;
      while unvisited != {}
        invariant unvisited <= store.oauth2Data.Keys
        invariant (tokenToParse == "" && forall k :: k in store.oauth2Data && k !in unvisited ==>
                     store.oauth2Data[k].token.accessToken != tokenString)
                  || tokenToParse in IDTokensOf(store.oauth2Data, tokenString)
      {
        var k :| k in unvisited;
        if store.oauth2Data[k].token.accessToken == tokenString {
          tokenToParse := store.oauth2Data[k].token.idToken;
        }
        unvisited := unvisited - {k};
      }
    }

    /** The user behind verified claims: by login for local tokens, through the entry IDs for OIDC ones. */
    function UserOf(claims: Claims): Result<User, UserError>
      reads this, store, userStore
    {
      if claims.sub.None? || claims.iss.None? then Err(NotFound)
      else if claims.kid == localKid then
        var k := First(userStore.users, ByLogin(claims.sub.value));
        if k < |userStore.users| then Ok(Blank(userStore.users[k])) else Err(NotFound)
      else
        var k := First(userStore.users, ByOIDCID(EntryIDs(store.oauth2Data, claims.iss.value, claims.sub.value)));
        if k < |userStore.users| then Ok(userStore.users[k]) else Err(NotFound)
    }

    /**
     A local token is made by the user whose login is its subject, and the record comes without
     the password hash. Any other token is made by the first user linked to an entry for its
     issuer and subject.
     */
    method GetUserFromRequest(claims: Claims) returns (user: Result<User, UserError>)
      ensures user == UserOf(claims)
      ensures claims.sub.None? || claims.iss.None? ==> user.Err?
      ensures claims.sub.Some? && claims.iss.Some? && claims.kid == localKid ==>
        && (user.Ok? <==> exists u :: u in userStore.users && u.login == claims.sub.value)
        && (user.Ok? ==> exists u :: u in userStore.users && u.login == claims.sub.value
                                     && user.value == u.(password := ""))
      ensures claims.sub.Some? && claims.iss.Some? && claims.kid != localKid ==>
        && (user.Ok? <==> exists u, k :: u in userStore.users && k in store.oauth2Data
                                         && store.oauth2Data[k].id == u.oidcID
                                         && store.oauth2Data[k].issuer == claims.iss.value
                                         && store.oauth2Data[k].subject == claims.sub.value)
        && (user.Ok? ==> user.value in userStore.users
                         && exists k :: k in store.oauth2Data && store.oauth2Data[k].id == user.value.oidcID
                                        && store.oauth2Data[k].issuer == claims.iss.value
                                        && store.oauth2Data[k].subject == claims.sub.value)
    {
      if claims.sub.None? || claims.iss.None? {
        return Err(NotFound);
      }
      if claims.kid == localKid {
        user := userStore.GetUserByLogin(claims.sub.value);
        return user;
      }
      var oauth2DataIDs := [];
      var unvisited := store.oauth2Data.Keys;
      while unvisited != {}
        invariant unvisited <= store.oauth2Data.Keys
        invariant Elems(oauth2DataIDs) == EntryIDs(store.oauth2Data - unvisited, claims.iss.value, claims.sub.value)
      {
        var k :| k in unvisited;
        var e := store.oauth2Data[k];
        IDsOfOneMore(store.oauth2Data, unvisited, k, claims.iss.value, claims.sub.value);
        ElemsConcat(oauth2DataIDs, [e.id]);
        if e.issuer == claims.iss.value && e.subject == claims.sub.value {
          oauth2DataIDs := oauth2DataIDs + [e.id];
        }
        unvisited := unvisited - {k};
      }
      assert store.oauth2Data - unvisited == store.oauth2Data;
      assert Elems(oauth2DataIDs) == EntryIDs(store.oauth2Data, claims.iss.value, claims.sub.value);
      if |oauth2DataIDs| == 0 {
        NoMatchAmongNone(userStore.users);
        return Err(NotFound);
      }
      user := userStore.GetUserByOIDCIDs(oauth2DataIDs);
    }

    /** The user behind a token that is a JWT, if it verifies. */
    function UserBehind(verifier: Verifier, jwt: string): Result<User, UserError>
      reads this, store, userStore
    {
      if jwt == "" || verifier.parse(jwt).None? then Err(NotFound) else UserOf(verifier.parse(jwt).value)
    }

    /**
     A request with a bearer token: a local one is verified itself, and made by the user whose
     login is its subject; any other stands for one of the ID tokens stored next to it.
     */
    method BearerUser(tokenString: string, kid: string, verifier: Verifier) returns (user: Result<User, UserError>)
      ensures kid == localKid ==> user == UserBehind(verifier, tokenString)
      ensures kid != localKid && (tokenString == "" || IDTokensOf(store.oauth2Data, tokenString) == {}) ==>
        user == Err(NotFound)
      ensures kid != localKid && tokenString != "" && IDTokensOf(store.oauth2Data, tokenString) != {} ==>
        exists idToken :: idToken in IDTokensOf(store.oauth2Data, tokenString) && user == UserBehind(verifier, idToken)
      ensures kid == localKid && tokenString != "" && verifier.parse(tokenString).Some? ==>
        var claims := verifier.parse(tokenString).value;
        claims.sub.Some? && claims.iss.Some? && claims.kid == kid ==>
          && (user.Ok? <==> exists u :: u in userStore.users && u.login == claims.sub.value)
          && (user.Ok? ==> user.value.login == claims.sub.value && user.value.password == "")
      ensures kid != localKid && user.Ok? ==>
        exists k ::
          && k in store.oauth2Data && store.oauth2Data[k].token.accessToken == tokenString
          && verifier.parse(store.oauth2Data[k].token.idToken).Some?
    {
      if |tokenString| == 0 {
        return Err(NotFound);
      }
      var tokenToParse := TokenToParse(tokenString, kid);
      if kid != localKid && tokenToParse == "" {
        return Err(NotFound);
      }
      var claims := verifier.parse(tokenToParse);
      if claims.None? {
        return Err(NotFound);
      }
      user := GetUserFromRequest(claims.value);
    }
  }

  lemma IDsOfOneMore(m: Entries, unvisited: set<string>, k: string, iss: string, sub: string)
    requires k in unvisited && unvisited <= m.Keys
    ensures EntryIDs(m - (unvisited - {k}), iss, sub)
         == EntryIDs(m - unvisited, iss, sub) + if m[k].issuer == iss && m[k].subject == sub then {m[k].id} else {}
  {
    var was, now := m - unvisited, m - (unvisited - {k});
    assert now == was[k := m[k]];
    forall id | id in EntryIDs(was, iss, sub) ensures id in EntryIDs(now, iss, sub) {
      var j :| j in was && was[j].issuer == iss && was[j].subject == sub && was[j].id == id;
      assert now[j] == was[j];
    }
    assert k in now && now[k] == m[k];
  }

  lemma NoMatchAmongNone(us: seq<User>)
    ensures First(us, ByOIDCID({})) == |us|
  {
  }
}
