/** Token renewal: the pass over all entries that an administrator forces, and the worker's own pass. */
module Renewal {
  import opened Common
  import opened OidcTypes
  import opened Caches
  import opened OidcStore
  import opened Users
  import opened RenewalSpec
  import Cleanup

  /** What the outside world answers while one entry is being handled. */
  datatype Env = Env(now: Time, discovery: Call<Discovery>, response: TokenResponse, saved: bool)

  function FirstLinked(us: seq<User>, id: string): seq<User> {
    var k := First(us, ByOIDCID({id}));
    if k < |us| then [us[k]] else []
  }

  /** The users of the entries that give up in a pass, in the order of the visits. */
  function DisabledUsers(us: seq<User>, m: Entries, providers: seq<OIDCProvider>, visits: seq<RenewalVisit>)
    : seq<User>
  {
    if visits == [] then []
    else
      var v := visits[|visits| - 1];
      DisabledUsers(us, m, providers, visits[..|visits| - 1])
      + if v.key in m && GivesUp(providers, m[v.key], v) then FirstLinked(us, m[v.key].id) else []
  }

  lemma DisabledOn(us: seq<User>, m: Entries, providers: seq<OIDCProvider>, visits: seq<RenewalVisit>, v: RenewalVisit,
                   list: seq<User>, more: seq<User>)
    requires v.key in m && list == DisabledUsers(us, m, providers, visits)
    requires more == if GivesUp(providers, m[v.key], v) then FirstLinked(us, m[v.key].id) else []
    ensures list + more == DisabledUsers(us, m, providers, visits + [v])
  {
    assert (visits + [v])[..|visits|] == visits;
  }

  /** The pass returns the first linked user of each entry that gave up in it, and nobody else. */
  lemma {:induction false} DisabledUsersAre(us: seq<User>, m: Entries, providers: seq<OIDCProvider>,
                                            visits: seq<RenewalVisit>, u: User)
    ensures u in DisabledUsers(us, m, providers, visits)
      <==> exists i :: 0 <= i < |visits| && visits[i].key in m && GivesUp(providers, m[visits[i].key], visits[i])
                       && FirstLinked(us, m[visits[i].key].id) == [u]
  {
    if visits != [] {
      var n := |visits| - 1;
      var front := visits[..n];
      DisabledUsersAre(us, m, providers, front, u);
      if i :| 0 <= i < |visits| && visits[i].key in m && GivesUp(providers, m[visits[i].key], visits[i])
              && FirstLinked(us, m[visits[i].key].id) == [u] {
        assert i < n ==> front[i] == visits[i];
      }
      if i :| 0 <= i < |front| && front[i].key in m && GivesUp(providers, m[front[i].key], front[i])
              && FirstLinked(us, m[front[i].key].id) == [u] {
        assert front[i] == visits[i];
      }
    }
  }

  /** The worker refreshes an entry whose access token has expired, or was last renewed too long ago. */
  predicate Due(e: OAuthData, renewalTime: Time, expiry: string -> Option<Time>, now: Time) {
    expiry(e.token.accessToken).Some?
    && (now - e.lastTokenRenewal > renewalTime || now > expiry(e.token.accessToken).value)
  }

  /** The forced pass looks up the discovery document of every entry; the worker only when the entry is due. */
  datatype Mode = Forced | Worker(renewalTime: Time, expiry: string -> Option<Time>)

  predicate LooksUp(mode: Mode, providers: seq<OIDCProvider>, e: OAuthData, env: Env) {
    && ProviderOf(providers, e.oidcProviderID).Some?
    && (mode.Worker? ==> Renewable(e) && Due(e, mode.renewalTime, mode.expiry, env.now))
  }

  function LookupOf(providers: seq<OIDCProvider>, e: OAuthData, env: Env): Call<Discovery>
    requires ProviderOf(providers, e.oidcProviderID).Some?
  {
    env.discovery.(uri := ProviderOf(providers, e.oidcProviderID).value.discoveryURI)
  }

  /** The visit that an iteration makes to an entry when it finds the discovery cache as `cache`. */
  function VisitAt(mode: Mode, cache: Cache<Discovery>, providers: seq<OIDCProvider>, key: string, e: OAuthData,
                   env: Env): RenewalVisit {
    var discovery := if LooksUp(mode, providers, e, env) then Answer(cache, LookupOf(providers, e, env)) else None;
    RenewalVisit(key, discovery, env.response)
  }

  function CacheNext(mode: Mode, cache: Cache<Discovery>, providers: seq<OIDCProvider>, e: OAuthData, env: Env)
    : Cache<Discovery>
  {
    if LooksUp(mode, providers, e, env) then CacheAfter(cache, DISCOVERY_TTL, LookupOf(providers, e, env)) else cache
  }

  /** What a pass starts with, and what the environment will answer at each key. */
  datatype Pass = Pass(mode: Mode, cache: Cache<Discovery>, m: Entries, providers: seq<OIDCProvider>,
      env: string -> Env)

  /** The discovery cache after the iterations of a pass. */
  function CacheAt(p: Pass, visits: seq<RenewalVisit>): Cache<Discovery> {
    if visits == [] then p.cache
    else
      var c, key := CacheAt(p, visits[..|visits| - 1]), visits[|visits| - 1].key;
      if key in p.m then CacheNext(p.mode, c, p.providers, p.m[key], p.env(key)) else c
  }

  /** Every visit carries what the environment answers there: the cached or fetched document, and the token endpoint. */
  ghost predicate Answered(p: Pass, visits: seq<RenewalVisit>) {
    visits == []
    || (var front, v := visits[..|visits| - 1], visits[|visits| - 1];
        && v.key in p.m
        && v == VisitAt(p.mode, CacheAt(p, front), p.providers, v.key, p.m[v.key], p.env(v.key))
        && Answered(p, front))
  }

  /** The entries in the store file after the iterations of a pass: each refresh saves all of them, if it can. */
  function FileAt(p: Pass, was: Option<Option<Entries>>, visits: seq<RenewalVisit>): Option<Option<Entries>> {
    if visits == [] then was
    else
      var front, v := visits[..|visits| - 1], visits[|visits| - 1];
      if v.key in p.m && Refreshes(p.providers, p.m[v.key], v) && p.env(v.key).saved
      then Some(Some(AfterVisits(p.m, p.providers, visits))) else FileAt(p, was, front)
  }

  /** What a pass changes: the entries, the discovery cache, the log of refreshed keys, and the entries in the file. */
  datatype Stand = Stand(m: Entries, cache: Cache<Discovery>, log: seq<string>, file: Option<Option<Entries>>)

  /** The step of one iteration, from the entry it holds. */
  function StandAfter(mode: Mode, providers: seq<OIDCProvider>, at: Stand, key: string, e: OAuthData, env: Env,
                      v: RenewalVisit): Stand {
    var cache := CacheNext(mode, at.cache, providers, e, env);
    if Refreshes(providers, e, v) then
      var m := at.m[key := EntryAfter(providers, e, v)];
      Stand(m, cache, at.log + [key], if env.saved then Some(Some(m)) else at.file)
    else at.(cache := cache)
  }

  /** A pass that began at `start` and made `visits`, to the keys `visited`, stands at `at`. */
  ghost predicate Stands(p: Pass, start: Stand, visits: seq<RenewalVisit>, visited: set<string>, at: Stand) {
    && visited <= p.m.Keys && RangesOver(visits, visited) && Answered(p, visits)
    && at.m == AfterVisits(p.m, p.providers, visits) && at.m.Keys == p.m.Keys
    && at.cache == CacheAt(p, visits)
    && at.log == start.log + RefreshedKeys(p.m, p.providers, visits)
    && at.file == FileAt(p, start.file, visits)
  }

  /** It goes on to any key that it has not visited, whose entry is still the one it started with. */
  lemma StandsNext(p: Pass, start: Stand, visits: seq<RenewalVisit>, visited: set<string>, at: Stand, key: string)
    requires Stands(p, start, visits, visited, at) && key in p.m && key !in visited
    ensures at.m[key] == p.m[key]
    ensures var v := VisitAt(p.mode, at.cache, p.providers, key, at.m[key], p.env(key));
      var next := StandAfter(p.mode, p.providers, at, key, at.m[key], p.env(key), v);
      Stands(p, start, visits + [v], visited + {key}, next)
  {
    var v := VisitAt(p.mode, at.cache, p.providers, key, p.m[key], p.env(key));
    VisitNext(p.m, p.providers, visits, visited, v);
    assert (visits + [v])[..|visits|] == visits;
  }

  /**
   A pass that refreshes nothing leaves the file alone; one that refreshes, and can save,
   leaves its entries there.
   */
  lemma {:induction false} FileFollows(p: Pass, was: Option<Option<Entries>>, visits: seq<RenewalVisit>,
                                       keys: set<string>)
    requires RangesOver(visits, keys) && Answered(p, visits)
    ensures RefreshedKeys(p.m, p.providers, visits) == [] ==>
      FileAt(p, was, visits) == was && AfterVisits(p.m, p.providers, visits) == p.m
    ensures RefreshedKeys(p.m, p.providers, visits) != [] && (forall k :: p.env(k).saved) ==>
      FileAt(p, was, visits) == Some(Some(AfterVisits(p.m, p.providers, visits)))
  {
    if visits != [] {
      var front, v := visits[..|visits| - 1], visits[|visits| - 1];
      FileFollows(p, was, front, keys - {v.key});
      VisitNext(p.m, p.providers, front, keys - {v.key}, v);
    }
  }

  /** An entry whose token the pass would refresh, if only its discovery document is found. */
  predicate IsEligible(p: Pass, k: string) {
    k in p.m && LooksUp(p.mode, p.providers, p.m[k], p.env(k)) && Renewable(p.m[k])
  }

  /** The visits of a pass before it stands at the key. */
  function Before(visits: seq<RenewalVisit>, k: string): seq<RenewalVisit> {
    if visits == [] then []
    else if visits[|visits| - 1].key == k then visits[..|visits| - 1]
    else Before(visits[..|visits| - 1], k)
  }

  /** The discovery document that a pass has when it stands at the key: from the cache, or fetched by then. */
  function DocumentAt(p: Pass, visits: seq<RenewalVisit>, k: string): Option<Discovery>
    requires k in p.m
  {
    match ProviderOf(p.providers, p.m[k].oidcProviderID)
    case None => None
    case Some(provider) =>
      Answer(CacheAt(p, Before(visits, k)), p.env(k).discovery.(uri := provider.discoveryURI))
  }

  lemma {:induction false} VisitIsAnswered(p: Pass, visits: seq<RenewalVisit>, k: string)
    requires Answered(p, visits) && VisitTo(visits, k).Some?
    ensures k in p.m
    ensures VisitTo(visits, k).value == VisitAt(p.mode, CacheAt(p, Before(visits, k)), p.providers, k, p.m[k], p.env(k))
  {
    if visits[|visits| - 1].key != k {
      VisitIsAnswered(p, visits[..|visits| - 1], k);
    }
  }

  /**
   A pass refreshes an entry exactly when the entry is eligible and its discovery document
   is cached or fetched by then.
   */
  lemma RefreshedExactlyWhen(p: Pass, visits: seq<RenewalVisit>, k: string)
    requires RangesOver(visits, p.m.Keys) && Answered(p, visits)
    ensures k in RefreshedKeys(p.m, p.providers, visits)
      <==> IsEligible(p, k) && DocumentAt(p, visits, k).Some?
  {
    RefreshedWhenEligible(p.m, p.providers, visits, p.m.Keys, k);
    VisitToEach(visits, p.m.Keys, k);
    if k in p.m {
      VisitIsAnswered(p, visits, k);
    }
  }

  /** Every eligible entry whose discovery request is answered is refreshed, exactly once; no other entry is. */
  lemma EligibleAreRefreshedOnce(p: Pass, visits: seq<RenewalVisit>)
    requires RangesOver(visits, p.m.Keys) && Answered(p, visits)
    ensures NoDuplicates(RefreshedKeys(p.m, p.providers, visits))
    ensures forall k :: k in RefreshedKeys(p.m, p.providers, visits) ==> IsEligible(p, k)
    ensures forall k :: IsEligible(p, k) && p.env(k).discovery.response.Some? ==>
      k in RefreshedKeys(p.m, p.providers, visits)
  {
    RefreshedOnce(p.m, p.providers, visits, p.m.Keys);
    forall k ensures k in RefreshedKeys(p.m, p.providers, visits) ==> IsEligible(p, k)
      ensures IsEligible(p, k) && p.env(k).discovery.response.Some? ==> k in RefreshedKeys(p.m, p.providers, visits) {
      RefreshedExactlyWhen(p, visits, k);
    }
  }

  /** A pass has the document when the provider is known and discovery answers. */
  lemma AnsweredHasDocument(p: Pass, visits: seq<RenewalVisit>, k: string)
    requires k in p.m
    ensures DocumentAt(p, visits, k).Some? ==> exists q :: q in p.providers && q.id == p.m[k].oidcProviderID
    ensures (exists q :: q in p.providers && q.id == p.m[k].oidcProviderID) && p.env(k).discovery.response.Some? ==>
      DocumentAt(p, visits, k).Some?
  {
    ProviderIsFirst(p.providers, p.m[k].oidcProviderID);
  }

  /** The worker refreshes an entry with a token exactly when that has expired or was last renewed too long ago. */
  lemma WorkerRefreshesExactlyWhen(p: Pass, visits: seq<RenewalVisit>, k: string)
    requires RangesOver(visits, p.m.Keys) && Answered(p, visits) && k in p.m && p.mode.Worker?
    ensures var e, now := p.m[k], p.env(k).now;
      var expiry := p.mode.expiry(e.token.accessToken);
      k in RefreshedKeys(p.m, p.providers, visits)
      <==> && !e.renewalFailed && e.token.accessToken != "" && DocumentAt(p, visits, k).Some?
           && expiry.Some? && (now > expiry.value || now - e.lastTokenRenewal > p.mode.renewalTime)
  {
    RefreshedExactlyWhen(p, visits, k);
  }

  /** The forced pass refreshes it in any case. */
  lemma ForcedPassRefreshesExactlyWhen(p: Pass, visits: seq<RenewalVisit>, k: string)
    requires RangesOver(visits, p.m.Keys) && Answered(p, visits) && k in p.m && p.mode.Forced?
    ensures k in RefreshedKeys(p.m, p.providers, visits)
      <==> !p.m[k].renewalFailed && p.m[k].token.accessToken != "" && DocumentAt(p, visits, k).Some?
  {
    RefreshedExactlyWhen(p, visits, k);
  }

  /** What a pass leaves of an entry: unchanged, or refreshed with the answer of the token endpoint. */
  lemma PassStores(p: Pass, visits: seq<RenewalVisit>, k: string)
    requires RangesOver(visits, p.m.Keys) && Answered(p, visits) && k in p.m
    ensures var after := AfterVisits(p.m, p.providers, visits);
      k in after
      && (k !in RefreshedKeys(p.m, p.providers, visits) ==> after[k] == p.m[k])
      && (k in RefreshedKeys(p.m, p.providers, visits) ==>
            exists d :: DocumentAt(p, visits, k) == Some(d) && IsRefreshed(p.m[k], d, p.env(k).response, after[k]))
  {
    PassIsPerEntry(p.m, p.providers, visits, p.m.Keys, k);
    RefreshedWhenEligible(p.m, p.providers, visits, p.m.Keys, k);
    VisitToEach(visits, p.m.Keys, k);
    VisitIsAnswered(p, visits, k);
    var v := VisitTo(visits, k).value;
    if Refreshes(p.providers, p.m[k], v) {
      RefreshStores(p.m[k], v.discovery.value, v.response);
    }
  }

  /** The users a pass returns: for each entry that it refreshed in vain once too often, the first one linked to it. */
  lemma FailedEntriesDisable(p: Pass, us: seq<User>, visits: seq<RenewalVisit>, u: User)
    requires RangesOver(visits, p.m.Keys) && Answered(p, visits)
    ensures var after := AfterVisits(p.m, p.providers, visits);
      u in DisabledUsers(us, p.m, p.providers, visits)
      <==> exists k, i ::
        && k in p.m && k in after && !p.m[k].renewalFailed && after[k].renewalFailed
        && 0 <= i < |us| && us[i] == u && u.oidcID == p.m[k].id
        && forall j :: 0 <= j < i ==> us[j].oidcID != p.m[k].id
  {
    var after := AfterVisits(p.m, p.providers, visits);
    DisabledUsersAre(us, p.m, p.providers, visits, u);
    if u in DisabledUsers(us, p.m, p.providers, visits) {
      var n :| 0 <= n < |visits| && visits[n].key in p.m && GivesUp(p.providers, p.m[visits[n].key], visits[n])
               && FirstLinked(us, p.m[visits[n].key].id) == [u];
      var k := visits[n].key;
      VisitIs(visits, p.m.Keys, n);
      PassIsPerEntry(p.m, p.providers, visits, p.m.Keys, k);
      assert us[First(us, ByOIDCID({p.m[k].id}))] == u;
    }
    if k, i :| && k in p.m && k in after && !p.m[k].renewalFailed && after[k].renewalFailed
               && 0 <= i < |us| && us[i] == u && u.oidcID == p.m[k].id
               && forall j :: 0 <= j < i ==> us[j].oidcID != p.m[k].id {
      PassIsPerEntry(p.m, p.providers, visits, p.m.Keys, k);
      var n := VisitFound(visits, k);
      FirstIs(us, ByOIDCID({p.m[k].id}), i);
    }
  }

  /** The visit at an index is the visit to its key. */
  lemma {:induction false} VisitIs(visits: seq<RenewalVisit>, keys: set<string>, n: nat)
    requires RangesOver(visits, keys) && n < |visits|
    ensures VisitTo(visits, visits[n].key) == Some(visits[n]) && visits[n].key in keys
  {
    if n < |visits| - 1 {
      VisitIs(visits[..|visits| - 1], keys - {visits[|visits| - 1].key}, n);
    }
  }

  lemma {:induction false} VisitFound(visits: seq<RenewalVisit>, k: string) returns (n: nat)
    requires VisitTo(visits, k).Some?
    ensures n < |visits| && visits[n] == VisitTo(visits, k).value && visits[n].key == k
  {
    n := |visits| - 1;
    if visits[n].key != k {
      n := VisitFound(visits[..n], k);
    }
  }

  lemma FirstIs(us: seq<User>, q: Query, i: nat)
    requires i < |us| && Matches(q, us[i]) && forall j :: 0 <= j < i ==> !Matches(q, us[j])
    ensures First(us, q) == i
  {
  }

  /** All discovery requests of the pass are answered as `net` says. */
  ghost predicate IsSteady(p: Pass, net: string -> Option<Discovery>) {
    forall k :: k in p.m && ProviderOf(p.providers, p.m[k].oidcProviderID).Some? ==>
      p.env(k).discovery.response == net(ProviderOf(p.providers, p.m[k].oidcProviderID).value.discoveryURI)
  }

  /** While the network does not answer for a document, a pass leaves what the cache has of it alone. */
  lemma {:induction false} UnansweredStays(p: Pass, net: string -> Option<Discovery>, visits: seq<RenewalVisit>,
                                           uri: string)
    requires IsSteady(p, net) && net(uri).None?
    ensures var after := CacheAt(p, visits);
      (uri in after <==> uri in p.cache) && (uri in p.cache ==> after[uri] == p.cache[uri])
  {
    if visits != [] {
      UnansweredStays(p, net, visits[..|visits| - 1], uri);
    }
  }

  /**
   While the network answers the same throughout, which entries a pass
   refreshes does not depend on the visit order: those that are eligible and
   whose document is fetched, or was fresh in the cache the pass started with.
   */
  lemma SteadyPassRefreshes(p: Pass, net: string -> Option<Discovery>, visits: seq<RenewalVisit>, k: string)
    requires RangesOver(visits, p.m.Keys) && Answered(p, visits) && IsSteady(p, net)
    ensures k in RefreshedKeys(p.m, p.providers, visits)
      <==> IsEligible(p, k)
           && var uri := ProviderOf(p.providers, p.m[k].oidcProviderID).value.discoveryURI;
           net(uri).Some? || (uri in p.cache && p.cache[uri].expiration > p.env(k).discovery.asked)
  {
    RefreshedExactlyWhen(p, visits, k);
    if IsEligible(p, k) && p.env(k).discovery.response.None? {
      UnansweredStays(p, net, Before(visits, k), LookupOf(p.providers, p.m[k], p.env(k)).uri);
    }
  }

  class Renewal {
    const store: Store
    const userStore: UserStore
    var providers: seq<OIDCProvider>
    var renewalTime: Time
    /** The keys whose token was refreshed, one element per request to a token endpoint. */
    ghost var refreshLog: seq<string>

    constructor (store: Store, userStore: UserStore, providers: seq<OIDCProvider>, renewalMinutes: int)
      ensures this.store == store && this.userStore == userStore && this.providers == providers && refreshLog == []
      ensures renewalTime == (if renewalMinutes <= 5 then 60 else renewalMinutes) * 60_000_000_000
    {
      this.store, this.userStore, this.providers := store, userStore, providers;
      renewalTime := if renewalMinutes <= 5 then 60 * MINUTE else renewalMinutes * MINUTE;
      refreshLog := [];
    }

    method GetOIDCProvider(id: string) returns (provider: Option<OIDCProvider>)
      ensures provider == ProviderOf(providers, id)
      ensures match provider
        case None => forall p :: p in providers ==> p.id != id
        case Some(p) => p.id == id && exists i :: 0 <= i < |providers| && providers[i] == p
                                                  && forall j :: 0 <= j < i ==> providers[j].id != id
    {
      ProviderIsFirst(providers, id);
      for i := 0 to |providers|
        invariant ProviderOf(providers, id) == ProviderOf(providers[i..], id)
      {
        if providers[i].id == id {
          return Some(providers[i]);
        }
      }
      return None;
    }

    /** Refreshes one entry from the copy the caller holds, writes it back and saves. */
    method Renew(discovery: Discovery, key: string, oauth2Data: OAuthData, env: Env) returns (userDisabled: bool)
      modifies store`oauth2Data, store.file, this`refreshLog
      ensures store.oauth2Data
           == old(store.oauth2Data)[key := Renewed(oauth2Data, RefreshToken(discovery, env.response))]
      ensures userDisabled == (RefreshToken(discovery, env.response).None? && Renewed(oauth2Data, None).renewalFailed)
      ensures IsRefreshed(oauth2Data, discovery, env.response, store.oauth2Data[key])
      ensures userDisabled <==> !GivesToken(discovery, env.response) && store.oauth2Data[key].renewalFailed
      ensures refreshLog == old(refreshLog) + [key]
      ensures store.file.content == if env.saved then Some(store.Image()) else old(store.file.content)
    {
      RefreshStores(oauth2Data, discovery, env.response);
      var entry := oauth2Data;
      var outcome := RefreshToken(discovery, env.response);
      refreshLog := refreshLog + [key];
      if outcome.None? {
        entry := entry.(renewalRetries := entry.renewalRetries + 1);
        if entry.renewalRetries >= RENEWAL_RETRIES {
          entry := entry.(renewalFailed := true);
        }
        store.StoreEntry(key, entry);
        var _ := store.SaveOIDCStore(env.saved);
        return entry.renewalFailed;
      }
      var n := outcome.value;
      entry := entry.(lastTokenRenewal := n.at);
      entry := entry.(token := entry.token.(accessToken := n.token.accessToken));
      entry := entry.(token := entry.token.(expiresIn := n.token.expiresIn));
      entry := entry.(token := entry.token.(refreshToken := n.token.refreshToken));
      if n.token.idToken != "" {
        entry := entry.(token := entry.token.(idToken := n.token.idToken));
      }
      store.StoreEntry(key, entry);
      var _ := store.SaveOIDCStore(env.saved);
      return false;
    }

    /**
     Visits every entry once, in any order. The entries, the refreshes and the users
     it returns are those of the visits it made.
     */
    method RenewAllOIDCConnections(env: string -> Env)
      returns (disabledUsers: seq<User>, ghost visits: seq<RenewalVisit>)
      modifies store`oauth2Data, store`discoveryCache, store.file, this`refreshLog
      ensures var p := Pass(Forced, old(store.discoveryCache), old(store.oauth2Data), providers, env);
        RangesOver(visits, p.m.Keys) && Answered(p, visits) && store.discoveryCache == CacheAt(p, visits)
        && store.oauth2Data == AfterVisits(p.m, providers, visits)
        && refreshLog == old(refreshLog) + RefreshedKeys(p.m, providers, visits)
        && FileEntries() == FileAt(p, old(FileEntries()), visits)
        && disabledUsers == DisabledUsers(userStore.users, p.m, providers, visits)
    {
      disabledUsers, visits := [], [];
      ghost var p := Pass(Forced, store.discoveryCache, store.oauth2Data, providers, env);
      ghost var start := Now();
      var unvisited := store.oauth2Data.Keys;
      while unvisited != {}
        invariant unvisited <= p.m.Keys
        invariant Stands(p, start, visits, p.m.Keys - unvisited, Now())
        invariant disabledUsers == DisabledUsers(userStore.users, p.m, providers, visits)
      {
        var key :| key in unvisited;
        StandsNext(p, start, visits, p.m.Keys - unvisited, Now(), key);
        var disabled;
        ghost var visit;
        disabled, visit := VisitEntry(key, store.oauth2Data[key], env(key));
        DisabledOn(userStore.users, p.m, providers, visits, visit, disabledUsers, disabled);
        disabledUsers := disabledUsers + disabled;
        visits := visits + [visit];
        assert p.m.Keys - (unvisited - {key}) == (p.m.Keys - unvisited) + {key};
        unvisited := unvisited - {key};
      }
      assert p.m.Keys - unvisited == p.m.Keys;
    }

    /** The body of the loop of RenewAllOIDCConnections. */
    method VisitEntry(key: string, oauth2Data: OAuthData, env: Env)
      returns (disabled: seq<User>, ghost visit: RenewalVisit)
      modifies store`oauth2Data, store`discoveryCache, store.file, this`refreshLog
      ensures visit == VisitAt(Forced, old(store.discoveryCache), providers, key, oauth2Data, env)
      ensures Now() == StandAfter(Forced, providers, old(Now()), key, oauth2Data, env, visit)
      ensures disabled == if GivesUp(providers, oauth2Data, visit)
                          then FirstLinked(userStore.users, oauth2Data.id) else []
    {
      disabled, visit := [], RenewalVisit(key, None, env.response);
      var oidcProvider := GetOIDCProvider(oauth2Data.oidcProviderID);
      if oidcProvider.Some? {
        var discovery := store.GetDiscoveryURI(env.discovery.(uri := oidcProvider.value.discoveryURI));
        if discovery.Ok? {
          visit := visit.(discovery := Some(discovery.value));
          if !(oauth2Data.renewalFailed || oauth2Data.token.accessToken == "") {
            var userDisabled := Renew(discovery.value, key, oauth2Data, env);
            if userDisabled {
              var user := userStore.GetUserByOIDCIDs([oauth2Data.id]);
              assert Elems([oauth2Data.id]) == {oauth2Data.id};
              if user.Ok? {
                disabled := [user.value];
              }
            }
          }
        }
      }
    }

    /** The worker's decision; the discovery document comes with it when the answer is yes. */
    method CanRenew(oauth2Data: OAuthData, expiry: string -> Option<Time>, env: Env)
      returns (discovery: Option<Discovery>)
      modifies store`discoveryCache
      ensures discovery.Some? ==> Renewable(oauth2Data) && Due(oauth2Data, renewalTime, expiry, env.now)
                                  && ProviderOf(providers, oauth2Data.oidcProviderID).Some?
      ensures var provider := ProviderOf(providers, oauth2Data.oidcProviderID);
        discovery == if Renewable(oauth2Data) && Due(oauth2Data, renewalTime, expiry, env.now) && provider.Some?
                     then Answer(old(store.discoveryCache), env.discovery.(uri := provider.value.discoveryURI))
                     else None
      ensures var e, expires := oauth2Data, expiry(oauth2Data.token.accessToken);
        var due := expires.Some? && (env.now > expires.value || env.now - e.lastTokenRenewal > renewalTime);
        && (discovery.Some? ==>
              && !e.renewalFailed && e.token.accessToken != "" && due
              && exists p :: p in providers && p.id == e.oidcProviderID
                             && discovery == Answer(old(store.discoveryCache), env.discovery.(uri := p.discoveryURI)))
        && (!e.renewalFailed && e.token.accessToken != "" && due
            && (exists p :: p in providers && p.id == e.oidcProviderID) && env.discovery.response.Some? ==>
              discovery.Some?)
      ensures store.discoveryCache == CacheNext(Worker(renewalTime, expiry), old(store.discoveryCache), providers,
          oauth2Data, env)
    {
      ProviderIsFirst(providers, oauth2Data.oidcProviderID);
      if oauth2Data.renewalFailed {
        return None;
      }
      if oauth2Data.token.accessToken == "" {
        return None;
      }
      var expirationDate := expiry(oauth2Data.token.accessToken);
      if expirationDate.None? {
        return None;
      }
      if env.now - oauth2Data.lastTokenRenewal > renewalTime || env.now > expirationDate.value {
        var oidcProvider := GetOIDCProvider(oauth2Data.oidcProviderID);
        if oidcProvider.None? {
          return None;
        }
        var found := store.GetDiscoveryURI(env.discovery.(uri := oidcProvider.value.discoveryURI));
        return if found.Ok? then Some(found.value) else None;
      }
      return None;
    }

    /** The loop of a worker round: look at every entry, in any order, and refresh those that are due. */
    method RenewDueEntries(expiry: string -> Option<Time>, env: string -> Env) returns (ghost visits: seq<RenewalVisit>)
      modifies store`oauth2Data, store`discoveryCache, store.file, this`refreshLog
      ensures var p := Pass(Worker(renewalTime, expiry), old(store.discoveryCache), old(store.oauth2Data),
          providers, env);
        RangesOver(visits, p.m.Keys) && Answered(p, visits) && store.discoveryCache == CacheAt(p, visits)
        && store.oauth2Data == AfterVisits(p.m, providers, visits)
        && refreshLog == old(refreshLog) + RefreshedKeys(p.m, providers, visits)
        && FileEntries() == FileAt(p, old(FileEntries()), visits)
    {
      ghost var p := Pass(Worker(renewalTime, expiry), store.discoveryCache, store.oauth2Data, providers, env);
      ghost var start := Now();
      visits := [];
      var unvisited := store.oauth2Data.Keys;
      while unvisited != {}
        invariant unvisited <= p.m.Keys
        invariant Stands(p, start, visits, p.m.Keys - unvisited, Now())
      {
        var key :| key in unvisited;
        StandsNext(p, start, visits, p.m.Keys - unvisited, Now(), key);
        ghost var visit;
        visit := VisitDueEntry(key, store.oauth2Data[key], expiry, env(key));
        visits := visits + [visit];
        assert p.m.Keys - (unvisited - {key}) == (p.m.Keys - unvisited) + {key};
        unvisited := unvisited - {key};
      }
      assert p.m.Keys - unvisited == p.m.Keys;
    }

    /** The body of that loop. */
    method VisitDueEntry(key: string, oauth2Data: OAuthData, expiry: string -> Option<Time>, env: Env)
      returns (ghost visit: RenewalVisit)
      modifies store`oauth2Data, store`discoveryCache, store.file, this`refreshLog
      ensures visit == VisitAt(Worker(renewalTime, expiry), old(store.discoveryCache), providers, key, oauth2Data, env)
      ensures Now() == StandAfter(Worker(renewalTime, expiry), providers, old(Now()), key, oauth2Data, env, visit)
    {
      var discovery := CanRenew(oauth2Data, expiry, env);
      visit := RenewalVisit(key, discovery, env.response);
      if discovery.Some? {
        var _ := Renew(discovery.value, key, oauth2Data, env);
      }
    }

    /**
     One round of the enabled worker: clean up all entries, save when the cleanup
     changed them, then refresh what is due.
     */
    method WorkerRound(clock: nat -> Time, cleanupSaved: bool, expiry: string -> Option<Time>, env: string -> Env)
      returns (ghost cleaned: seq<Cleanup.Visit>, ghost visits: seq<RenewalVisit>)
      requires forall i: nat :: clock(i) <= clock(i + 1)
      modifies store`oauth2Data, store`discoveryCache, store.file, this`refreshLog
      ensures Cleanup.IsPass(old(store.oauth2Data), {}, cleaned) && Clocked(cleaned, clock)
      ensures var m := Cleanup.PassResult(old(store.oauth2Data), cleaned);
        var p := Pass(Worker(renewalTime, expiry), old(store.discoveryCache), m, providers, env);
        RangesOver(visits, m.Keys) && Answered(p, visits) && store.discoveryCache == CacheAt(p, visits)
        && store.oauth2Data == AfterVisits(m, providers, visits)
        && refreshLog == old(refreshLog) + RefreshedKeys(m, providers, visits)
        && var cleanedFile := if m != old(store.oauth2Data) && cleanupSaved then Some(Some(m)) else old(FileEntries());
        FileEntries() == FileAt(p, cleanedFile, visits)
    {
      var deletedEntries;
      deletedEntries, cleaned := store.CleanupOAuth2DataForAllEntries(clock);
      Cleanup.PassCountDetectsChange(old(store.oauth2Data), cleaned);
      if deletedEntries > 0 {
        var _ := store.SaveOIDCStore(cleanupSaved);
      }
      visits := RenewDueEntries(expiry, env);
    }

    ghost function Now(): Stand
      reads this, store, store.file
    {
      Stand(store.oauth2Data, store.discoveryCache, refreshLog, FileEntries())
    }

    /** The entries in the store file, when it has been written. */
    ghost function FileEntries(): Option<Option<Entries>>
      reads this, store, store.file
    {
      match store.file.content
      case None => None
      case Some(image) => Some(image.oauth2Data)
    }
  }
}
