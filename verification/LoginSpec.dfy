/** What a token exchange and the verified ID token make of a pending entry. */
module LoginSpec {
  import opened Common
  import opened OidcTypes

  /** The claims of a verified ID token; a missing claim is None. */
  datatype Claims = Claims(
    sub: Option<string>,
    email: Option<string>,
    preferredUsername: Option<string>,
    iss: Option<string>,
    kid: string
  )

  /** Answer of the token endpoint to the authorization code: None is any failure up to decoding the response. */
  datatype Exchange = Exchange(token: Token, at: Time)

  /** Verification of ID tokens, and the test that a preferred user name is an email address. */
  datatype Verifier = Verifier(parse: string -> Option<Claims>, isAddress: string -> bool)

  datatype ClaimedIdentity = ClaimedIdentity(subject: string, email: string, issuer: string)

  function EmailOf(v: Verifier, claims: Claims): Option<string> {
    if claims.email.Some? then claims.email
    else if claims.preferredUsername.Some? && v.isAddress(claims.preferredUsername.value) then claims.preferredUsername
    else None
  }

  /** The identity in an ID token, if it verifies and has all of it. */
  function IdentityIn(v: Verifier, idToken: string): Option<ClaimedIdentity> {
    match v.parse(idToken)
    case None => None
    case Some(claims) =>
      if claims.sub.None? || EmailOf(v, claims).None? || claims.iss.None? then None
      else Some(ClaimedIdentity(claims.sub.value, EmailOf(v, claims).value, claims.iss.value))
  }

  /** The entry with the exchanged token and the identity in it, or None when the exchange does not give one. */
  function WithToken(v: Verifier, tokenEndpoint: string, exchange: Option<Exchange>, e: OAuthData): Option<OAuthData> {
    if tokenEndpoint == "" || exchange.None? then None
    else
      match IdentityIn(v, exchange.value.token.idToken)
      case None => None
      case Some(identity) =>
        Some(e.(token := exchange.value.token,
                lastTokenRenewal := exchange.value.at,
                subject := identity.subject,
                issuer := identity.issuer,
                userInfo := UserInfo(identity.email)))
  }

  /**
   A token exchange stores what the token endpoint answered and what the claims of its ID
   token say, and touches nothing else. The email is the email claim; preferred_username
   stands in only for a missing one.
   */
  lemma WithTokenKeeps(v: Verifier, tokenEndpoint: string, exchange: Option<Exchange>, e: OAuthData)
    ensures var r := WithToken(v, tokenEndpoint, exchange, e);
      r.Some? ==>
        var e' := r.value;
        && exchange.Some? && v.parse(exchange.value.token.idToken).Some?
        && var claims := v.parse(exchange.value.token.idToken).value;
        && e'.token == exchange.value.token && e'.lastTokenRenewal == exchange.value.at
        && claims.sub == Some(e'.subject) && claims.iss == Some(e'.issuer)
        && (claims.email.Some? ==> e'.userInfo.email == claims.email.value)
        && (claims.email.None? ==>
              claims.preferredUsername == Some(e'.userInfo.email) && v.isAddress(e'.userInfo.email))
        && e'.id == e.id && e'.oidcProviderID == e.oidcProviderID && e'.createdAt == e.createdAt
        && e'.renewalRetries == e.renewalRetries && e'.renewalFailed == e.renewalFailed
        && e'.authFailed == e.authFailed && e'.suspended == e.suspended
        && IdentityIn(v, e'.token.idToken) == Some(ClaimedIdentity(e'.subject, e'.userInfo.email, e'.issuer))
  {
  }

  /** It gives an entry exactly when the token endpoint answers with an ID token that verifies and names a person. */
  lemma WithTokenExactlyWhen(v: Verifier, tokenEndpoint: string, exchange: Option<Exchange>, e: OAuthData)
    ensures WithToken(v, tokenEndpoint, exchange, e).Some?
      <==> && tokenEndpoint != "" && exchange.Some? && v.parse(exchange.value.token.idToken).Some?
           && var claims := v.parse(exchange.value.token.idToken).value;
           && claims.sub.Some? && claims.iss.Some?
           && (claims.email.Some?
               || (claims.preferredUsername.Some? && v.isAddress(claims.preferredUsername.value)))
  {
  }
}
