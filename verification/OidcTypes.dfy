/** The records of the OIDC login flow. */
module OidcTypes {
  import opened Common

  datatype Token = Token(accessToken: string, tokenType: string, refreshToken: string, expiresIn: int, idToken: string)

  const NO_TOKEN := Token("", "", "", 0, "")

  datatype UserInfo = UserInfo(email: string)

  /** One login attempt: pending while its access token is empty, token-bearing afterwards. */
  datatype OAuthData = OAuthData(
    id: string,
    oidcProviderID: string,
    createdAt: Time,
    subject: string,
    issuer: string,
    userInfo: UserInfo,
    token: Token,
    authFailed: bool,
    suspended: bool,
    lastTokenRenewal: Time,
    renewalFailed: bool,
    renewalRetries: int
  ) {
    predicate TokenBearing() { token.accessToken != "" }
  }

  /** The entries of the store, keyed by the state of the login redirect. */
  type Entries = map<string, OAuthData>

  /** What a redirect stores: everything but ID, provider and creation time is Go's zero value. */
  function PendingEntry(id: string, providerID: string, createdAt: Time): OAuthData {
    OAuthData(id, providerID, createdAt, "", "", UserInfo(""), NO_TOKEN, false, false, 0, false, 0)
  }

  function TokenBearingPart(m: Entries): Entries {
    map k | k in m && m[k].TokenBearing() :: m[k]
  }

  datatype OIDCProvider = OIDCProvider(id: string, clientID: string, clientSecret: string, discoveryURI: string)

  datatype Discovery = Discovery(issuer: string, tokenEndpoint: string, jwksURI: string)

  datatype Jwks = Jwks(keys: seq<string>)
}
