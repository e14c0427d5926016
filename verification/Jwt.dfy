/**
 Claims, signed tokens and what the checks accept (pkg/auth/jwt.go, pkg/auth/role.go).
 Signatures are ideal and deterministic: a signed token is its claims, and text that was not
 signed never verifies.  Times are nanoseconds; NumericDate keeps whole seconds (RFC 7519,
 sections 4.1.4 to 4.1.6).
 */
module Jwt {
  import opened Wrappers

  datatype Role = Invalid | Admin | Default | Family | Tanya

  datatype Claims = Claims(
    id: int,
    uuid: string,
    roles: seq<Role>,
    aud: seq<string>,
    iss: string,
    exp: Option<int>,
    nbf: Option<int>,
    iat: Option<int>)

  datatype Token = Signed(claims: Claims) | Junk(text: string)

  datatype Error = BadToken | NoAudience | BadIssuerOrAud | BadRefreshTokenAud | BadIssuer

  const ISSUER: string := "harrybrwn.com"
  const TOKEN_AUDIENCE: string := "user"
  const REFRESH_AUDIENCE: string := "refresh"

  const SECOND: int := 1_000_000_000
  const EXPIRATION: int := 2 * 60 * 60 * SECOND
  const REFRESH_EXPIRATION: int := 5 * 24 * 60 * 60 * SECOND

  function Sec(t: int): int {
    t / SECOND
  }

  /** The time checks the token library makes while parsing. */
  predicate TimesOk(c: Claims, now: int) {
    && (c.exp.Some? ==> now < c.exp.value * SECOND)
    && (c.iat.Some? ==> now >= c.iat.value * SECOND)
    && (c.nbf.Some? ==> now >= c.nbf.value * SECOND)
  }

  predicate Parses(t: Token, now: int) {
    t.Signed? && TimesOk(t.claims, now)
  }

  /** Parsing followed by isValid: what the guard middleware lets through. */
  function Guard(t: Token, now: int): Result<Claims, Error> {
    if !Parses(t, now) then Err(BadToken)
    else if |t.claims.aud| == 0 then Err(NoAudience)
    else if t.claims.iss != ISSUER || t.claims.aud[0] != TOKEN_AUDIENCE then Err(BadIssuerOrAud)
    else Ok(t.claims)
  }

  function ValidateRefreshToken(t: Token, now: int): Result<Claims, Error> {
    if !Parses(t, now) then Err(BadToken)
    else if |t.claims.aud| < 1 || t.claims.aud[0] != REFRESH_AUDIENCE then Err(BadRefreshTokenAud)
    else if t.claims.iss != ISSUER then Err(BadIssuer)
    else Ok(t.claims)
  }

  /** No token whatever passes as both an access token and a refresh token. */
  lemma NeverBoth(t: Token, now: int, later: int)
    ensures !(Guard(t, now).Ok? && ValidateRefreshToken(t, later).Ok?)
  {
    assert TOKEN_AUDIENCE[0] != REFRESH_AUDIENCE[0];
  }

  /** Exactly which tokens pass as access tokens, written out. */
  lemma GuardAcceptsExactly(t: Token, now: int)
    ensures Guard(t, now).Ok? <==>
      && t.Signed? && |t.claims.aud| > 0 && t.claims.aud[0] == "user" && t.claims.iss == "harrybrwn.com"
      && (t.claims.exp.Some? ==> now < t.claims.exp.value * 1_000_000_000)
      && (t.claims.iat.Some? ==> t.claims.iat.value * 1_000_000_000 <= now)
      && (t.claims.nbf.Some? ==> t.claims.nbf.value * 1_000_000_000 <= now)
    ensures Guard(t, now).Ok? ==> Guard(t, now).value == t.claims
  {
  }

  /** The same for refresh tokens, which differ in the audience alone. */
  lemma RefreshAcceptsExactly(t: Token, now: int)
    ensures ValidateRefreshToken(t, now).Ok? <==>
      && t.Signed? && |t.claims.aud| > 0 && t.claims.aud[0] == "refresh"
      && Guard(Signed(t.claims.(aud := ["user"])), now).Ok?
    ensures ValidateRefreshToken(t, now).Ok? ==> ValidateRefreshToken(t, now).value == t.claims
  {
  }

  // ---- Signing ----

  function AccessClaims(c: Claims, now: int): Claims {
    c.(iat := Some(Sec(now)), exp := Some(Sec(now + EXPIRATION)))
  }

  function RefreshClaims(c: Claims, now: int): Claims {
    c.(aud := [REFRESH_AUDIENCE], exp := Some(Sec(now + REFRESH_EXPIRATION)))
  }

  /** Claims as the handlers pass them around: by reference. */
  class ClaimsRef {
    var claims: Claims

    constructor (claims: Claims)
      ensures this.claims == claims
    {
      this.claims := claims;
    }
  }

  class TokenResponse {
    var token: Token
    var expires: int
    var refreshToken: Option<Token>

    constructor (token: Token, expires: int)
      ensures this.token == token && this.expires == expires && refreshToken == None
    {
      this.token, this.expires, refreshToken := token, expires, None;
    }

    /** Works on a copy of the claims, so the caller's are left alone. */
    method InitRefreshToken(now: int, c: Claims)
      modifies this`refreshToken
      ensures refreshToken == Some(Signed(RefreshClaims(c, now)))
      ensures var r := RefreshClaims(c, now);
        && r == c.(aud := r.aud, exp := r.exp)
        && r.aud == ["refresh"] && r.exp == Some((now + 432_000_000_000_000) / 1_000_000_000)
    {
      var copy := c;
      copy := copy.(aud := [REFRESH_AUDIENCE]);
      copy := copy.(exp := Some(Sec(now + REFRESH_EXPIRATION)));
      refreshToken := Some(Signed(copy));
    }
  }

  /** Writes the new times into the caller's claims before signing them. */
  method NewAccessToken(now: int, claims: ClaimsRef) returns (resp: TokenResponse)
    modifies claims
    ensures fresh(resp) && resp.refreshToken == None
    ensures claims.claims == AccessClaims(old(claims.claims), now)
    ensures claims.claims == old(claims.claims).(iat := claims.claims.iat, exp := claims.claims.exp)
    ensures claims.claims.iat == Some(now / 1_000_000_000)
    ensures claims.claims.exp == Some((now + 7_200_000_000_000) / 1_000_000_000)
    ensures resp.token == Signed(claims.claims) && Some(resp.expires) == claims.claims.exp
  {
    var expires := Sec(now + EXPIRATION);
    claims.claims := claims.claims.(iat := Some(Sec(now)));
    claims.claims := claims.claims.(exp := Some(expires));
    resp := new TokenResponse(Signed(claims.claims), expires);
  }

  /**
   Both tokens, the second signed after a further delay.  The claims the caller keeps are
   those of the access token: still for the access audience, with its expiry.
   */
  method NewTokenResponse(now: int, delay: nat, claims: ClaimsRef) returns (resp: TokenResponse)
    modifies claims
    ensures fresh(resp)
    ensures claims.claims == AccessClaims(old(claims.claims), now)
    ensures claims.claims.aud == old(claims.claims.aud) && claims.claims.exp == Some(Sec(now + EXPIRATION))
    ensures resp.token == Signed(AccessClaims(old(claims.claims), now))
    ensures resp.refreshToken == Some(Signed(RefreshClaims(AccessClaims(old(claims.claims), now), now + delay)))
  {
    resp := NewAccessToken(now, claims);
    resp.InitRefreshToken(now + delay, claims.claims);
  }
}
