/** What one token refresh does to an entry, and what every refresh keeps. */
module RenewalSpec {
  import opened Common
  import opened OidcTypes

  const RENEWAL_RETRIES: int := 3

  /** How the request to the token endpoint ended. */
  datatype TokenResponse = NoResponse | BadStatus | Undecodable | Decoded(token: Token, at: Time)

  datatype NewToken = NewToken(token: Token, at: Time)

  /** A refresh succeeds only with a non-empty access token. */
  function RefreshToken(discovery: Discovery, response: TokenResponse): (r: Option<NewToken>)
    ensures r.Some? ==> r.value.token.accessToken != ""
  {
    if discovery.tokenEndpoint != "" && response.Decoded? && response.token.accessToken != ""
    then Some(NewToken(response.token, response.at))
    else None
  }

  /** The entry that is written back after a refresh; a failed refresh counts, a successful one resets nothing. */
  function Renewed(e: OAuthData, outcome: Option<NewToken>): OAuthData {
    match outcome
    case None =>
      var retries := e.renewalRetries + 1;
      e.(renewalRetries := retries, renewalFailed := e.renewalFailed || retries >= RENEWAL_RETRIES)
    case Some(n) =>
      e.(lastTokenRenewal := n.at,
         token := e.token.(accessToken := n.token.accessToken,
                           expiresIn := n.token.expiresIn,
                           refreshToken := n.token.refreshToken,
                           idToken := if n.token.idToken != "" then n.token.idToken else e.token.idToken))
  }

  /** An entry that may be refreshed at all. */
  predicate Renewable(e: OAuthData) {
    !e.renewalFailed && e.token.accessToken != ""
  }

  /** Retries stay within bounds, and the entry has failed exactly when they are used up. */
  predicate RetriesInBounds(e: OAuthData) {
    0 <= e.renewalRetries <= RENEWAL_RETRIES && (e.renewalFailed <==> e.renewalRetries == RENEWAL_RETRIES)
  }

  /** What identifies a token-bearing entry for good. */
  datatype Identity = Identity(id: string, providerID: string, createdAt: Time, subject: string, issuer: string,
      email: string)

  function IdentityOf(e: OAuthData): Identity {
    Identity(e.id, e.oidcProviderID, e.createdAt, e.subject, e.issuer, e.userInfo.email)
  }

  /** A count of failed refreshes per key; a key without any need not be in it. */
  function FailuresOf(failures: map<string, nat>, k: string): nat {
    if k in failures then failures[k] else 0
  }

  lemma RefreshKeeps(e: OAuthData, discovery: Discovery, response: TokenResponse)
    requires Renewable(e) && RetriesInBounds(e)
    ensures var e' := Renewed(e, RefreshToken(discovery, response));
      RetriesInBounds(e') && IdentityOf(e') == IdentityOf(e) && e'.TokenBearing()
  {
  }

  /** The token endpoint gives a new access token. */
  predicate GivesToken(discovery: Discovery, response: TokenResponse) {
    discovery.tokenEndpoint != "" && response.Decoded? && response.token.accessToken != ""
  }

  /**
   What a refresh of `e` leaves, field by field: the tokens, expiry and time of the answer, but
   the old ID token when the answer has none; or one more retry, of which the third is the last.
   */
  predicate IsRefreshed(e: OAuthData, discovery: Discovery, response: TokenResponse, e': OAuthData) {
    && IdentityOf(e') == IdentityOf(e) && e'.suspended == e.suspended && e'.authFailed == e.authFailed
    && if GivesToken(discovery, response) then
         && e'.token.accessToken == response.token.accessToken
         && e'.token.refreshToken == response.token.refreshToken
         && e'.token.expiresIn == response.token.expiresIn
         && e'.token.idToken == (if response.token.idToken == "" then e.token.idToken else response.token.idToken)
         && e'.token.tokenType == e.token.tokenType
         && e'.lastTokenRenewal == response.at
         && e'.renewalRetries == e.renewalRetries && e'.renewalFailed == e.renewalFailed
       else
         && e'.token == e.token && e'.lastTokenRenewal == e.lastTokenRenewal
         && e'.renewalRetries == e.renewalRetries + 1
         && (e'.renewalFailed <==> e.renewalFailed || e.renewalRetries + 1 >= 3)
  }

  lemma RefreshStores(e: OAuthData, discovery: Discovery, response: TokenResponse)
    ensures IsRefreshed(e, discovery, response, Renewed(e, RefreshToken(discovery, response)))
    ensures RefreshToken(discovery, response).Some? <==> GivesToken(discovery, response)
  {
  }

  function ProviderOf(providers: seq<OIDCProvider>, id: string): Option<OIDCProvider> {
    if providers == [] then None
    else if providers[0].id == id then Some(providers[0])
    else ProviderOf(providers[1..], id)
  }

  /** It is the first provider with that ID. */
  lemma {:induction false} ProviderIsFirst(providers: seq<OIDCProvider>, id: string)
    ensures match ProviderOf(providers, id)
      case None => forall p :: p in providers ==> p.id != id
      case Some(p) => p.id == id && exists i :: 0 <= i < |providers| && providers[i] == p
                                                && forall j :: 0 <= j < i ==> providers[j].id != id
  {
    if providers != [] && providers[0].id != id {
      var rest := providers[1..];
      ProviderIsFirst(rest, id);
      if ProviderOf(rest, id).Some? {
        var i :| && 0 <= i < |rest| && rest[i] == ProviderOf(rest, id).value
                 && forall j :: 0 <= j < i ==> rest[j].id != id;
        assert providers[i + 1] == rest[i];
        assert forall j :: 0 <= j < i + 1 ==> providers[j].id != id;
      }
    }
  }

  /** One iteration over the entries: what the discovery lookup and, if asked, the token endpoint answered. */
  datatype RenewalVisit = RenewalVisit(key: string, discovery: Option<Discovery>, response: TokenResponse)

  /** The iteration refreshes the entry it stands at. */
  predicate Refreshes(providers: seq<OIDCProvider>, e: OAuthData, v: RenewalVisit) {
    ProviderOf(providers, e.oidcProviderID).Some? && v.discovery.Some? && Renewable(e)
  }

  function OutcomeOf(v: RenewalVisit): Option<NewToken>
    requires v.discovery.Some?
  {
    RefreshToken(v.discovery.value, v.response)
  }

  /** The refresh fails and uses up the retries of the entry. */
  predicate GivesUp(providers: seq<OIDCProvider>, e: OAuthData, v: RenewalVisit) {
    Refreshes(providers, e, v) && OutcomeOf(v).None? && Renewed(e, None).renewalFailed
  }

  /** In bounds, that is exactly the third failure. */
  lemma GivesUpOnThirdFailure(providers: seq<OIDCProvider>, e: OAuthData, v: RenewalVisit)
    requires RetriesInBounds(e)
    ensures GivesUp(providers, e, v)
      <==> Refreshes(providers, e, v) && OutcomeOf(v).None? && e.renewalRetries == RENEWAL_RETRIES - 1
  {
  }

  function EntryAfter(providers: seq<OIDCProvider>, e: OAuthData, v: RenewalVisit): OAuthData {
    if Refreshes(providers, e, v) then Renewed(e, OutcomeOf(v)) else e
  }

  /** The entries after the iterations of a pass, each of which writes back the entry it stands at. */
  function AfterVisits(m: Entries, providers: seq<OIDCProvider>, visits: seq<RenewalVisit>): Entries {
    if visits == [] then m
    else
      var n, v := AfterVisits(m, providers, visits[..|visits| - 1]), visits[|visits| - 1];
      if v.key in n && Refreshes(providers, n[v.key], v) then n[v.key := EntryAfter(providers, n[v.key], v)] else n
  }

  /** The keys that the iterations of a pass refresh, one element per request to a token endpoint. */
  function RefreshedKeys(m: Entries, providers: seq<OIDCProvider>, visits: seq<RenewalVisit>): seq<string> {
    if visits == [] then []
    else
      var n, v := AfterVisits(m, providers, visits[..|visits| - 1]), visits[|visits| - 1];
      RefreshedKeys(m, providers, visits[..|visits| - 1])
      + if v.key in n && Refreshes(providers, n[v.key], v) then [v.key] else []
  }

  /** The visits stand at each of `keys` exactly once, in any order. */
  ghost predicate RangesOver(visits: seq<RenewalVisit>, keys: set<string>) {
    if visits == [] then keys == {}
    else
      var v := visits[|visits| - 1];
      v.key in keys && RangesOver(visits[..|visits| - 1], keys - {v.key})
  }

  /** The visit of a pass to a key, if it makes one. */
  function VisitTo(visits: seq<RenewalVisit>, k: string): Option<RenewalVisit> {
    if visits == [] then None
    else if visits[|visits| - 1].key == k then Some(visits[|visits| - 1])
    else VisitTo(visits[..|visits| - 1], k)
  }

  lemma {:induction false} VisitToEach(visits: seq<RenewalVisit>, keys: set<string>, k: string)
    requires RangesOver(visits, keys)
    ensures VisitTo(visits, k).Some? <==> k in keys
    ensures VisitTo(visits, k).Some? ==> VisitTo(visits, k).value.key == k
  {
    if visits != [] {
      VisitToEach(visits[..|visits| - 1], keys - {visits[|visits| - 1].key}, k);
    }
  }

  lemma {:induction false} PassKeepsKeys(m: Entries, providers: seq<OIDCProvider>, visits: seq<RenewalVisit>)
    ensures AfterVisits(m, providers, visits).Keys == m.Keys
  {
    if visits != [] {
      PassKeepsKeys(m, providers, visits[..|visits| - 1]);
    }
  }

  /** A pass treats each entry as the pass found it, and leaves the entries it does not visit alone. */
  lemma {:induction false} PassIsPerEntry(m: Entries, providers: seq<OIDCProvider>, visits: seq<RenewalVisit>,
                                          keys: set<string>, k: string)
    requires RangesOver(visits, keys) && k in m
    ensures k in AfterVisits(m, providers, visits)
    ensures AfterVisits(m, providers, visits)[k] == match VisitTo(visits, k)
                                                    case None => m[k]
                                                    case Some(v) => EntryAfter(providers, m[k], v)
  {
    PassKeepsKeys(m, providers, visits);
    if visits != [] {
      var front, v := visits[..|visits| - 1], visits[|visits| - 1];
      PassKeepsKeys(m, providers, front);
      PassIsPerEntry(m, providers, front, keys - {v.key}, k);
      VisitToEach(front, keys - {v.key}, v.key);
    }
  }

  /** A pass refreshes exactly the entries that are eligible as the pass found them. */
  lemma {:induction false} RefreshedWhenEligible(m: Entries, providers: seq<OIDCProvider>, visits: seq<RenewalVisit>,
                                                 keys: set<string>, k: string)
    requires RangesOver(visits, keys)
    ensures k in RefreshedKeys(m, providers, visits)
      <==> k in m && VisitTo(visits, k).Some? && Refreshes(providers, m[k], VisitTo(visits, k).value)
  {
    if visits != [] {
      var front, v := visits[..|visits| - 1], visits[|visits| - 1];
      RefreshedWhenEligible(m, providers, front, keys - {v.key}, k);
      PassKeepsKeys(m, providers, front);
      VisitToEach(front, keys - {v.key}, v.key);
      if v.key == k && k in m {
        PassIsPerEntry(m, providers, front, keys - {v.key}, k);
      }
    }
  }

  /** And it refreshes each of them once. */
  lemma {:induction false} RefreshedOnce(m: Entries, providers: seq<OIDCProvider>, visits: seq<RenewalVisit>,
                                         keys: set<string>)
    requires RangesOver(visits, keys)
    ensures NoDuplicates(RefreshedKeys(m, providers, visits))
  {
    if visits != [] {
      var front, v := visits[..|visits| - 1], visits[|visits| - 1];
      RefreshedOnce(m, providers, front, keys - {v.key});
      RefreshedWhenEligible(m, providers, front, keys - {v.key}, v.key);
      VisitToEach(front, keys - {v.key}, v.key);
    }
  }

  /** A range loop goes on to a key it has not visited, and finds its entry as it was at the start. */
  lemma VisitNext(m: Entries, providers: seq<OIDCProvider>, visits: seq<RenewalVisit>, keys: set<string>,
                  v: RenewalVisit)
    requires RangesOver(visits, keys) && v.key in m && v.key !in keys
    ensures RangesOver(visits + [v], keys + {v.key})
    ensures (visits + [v])[..|visits|] == visits
    ensures v.key in AfterVisits(m, providers, visits) && AfterVisits(m, providers, visits)[v.key] == m[v.key]
  {
    assert (visits + [v])[..|visits|] == visits;
    assert keys + {v.key} - {v.key} == keys;
    PassIsPerEntry(m, providers, visits, keys, v.key);
    VisitToEach(visits, keys, v.key);
  }
}
