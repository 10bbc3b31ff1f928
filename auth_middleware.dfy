/**
  The two login-token middlewares. Both read the Authorization header; the
  required one answers 401 unless it carries a valid "Bearer <token>", the
  optional one always lets the request through and attaches the user only
  when the token validates. The auth service's token check is a parameter.
*/
module AuthMiddleware {
  import opened Wrappers
  import LocalAuthentication
  import Jwt

  /** The auth service's `ValidateToken`: the token's claims, or None on any error. */
  type Validator = string -> Option<LocalAuthentication.Claims>

  /** What a middleware attaches to the request context: user_id, email, provider and the whole claims. */
  datatype Locals = Locals(userId: string, email: string, provider: string, claims: LocalAuthentication.Claims)

  /** Either the request goes on to the next handler, with or without a user attached, or it is answered here. */
  datatype Outcome = Next(locals: Option<Locals>) | Reply(status: int, error: string)

  const BearerPrefix: string := "Bearer "

  /**
    The token of a header of the form "Bearer <token>" with a non-empty
    token (the prefix is matched case-sensitively), or None.
  */
  function BearerToken(header: string): (r: Option<string>)
    ensures r.Some? <==> |header| > 7 && header[..7] == BearerPrefix
    ensures r.Some? ==> r.value != "" && header == BearerPrefix + r.value
  {
    if |header| > 7 && header[..7] == BearerPrefix then Some(header[7..]) else None
  }

  lemma BearerTokenOfHeader(token: string)
    requires token != ""
    ensures BearerToken(BearerPrefix + token) == Some(token)
  {
    assert (BearerPrefix + token)[..7] == BearerPrefix;
    assert (BearerPrefix + token)[7..] == token;
  }

  /** A header that is the bare prefix, with nothing after it, carries no token. */
  lemma BarePrefixRejected(validate: Validator)
    ensures BearerToken(BearerPrefix) == None
    ensures JWTAuth(BearerPrefix, validate) == Reply(401, "invalid authorization header format")
    ensures OptionalJWTAuth(BearerPrefix, validate) == Next(None)
  {
  }

  function LocalsOf(c: LocalAuthentication.Claims): Locals
  {
    Locals(c.userId, c.email, c.provider, c)
  }

  /**
    `JWTAuth`: 401 "authorization header is required" for a missing header,
    401 "invalid authorization header format" for one that is not a bearer
    header, 401 "invalid or expired token" when validation fails; otherwise
    the request proceeds carrying the token's user.
  */
  function JWTAuth(authorization: string, validate: Validator): (r: Outcome)
    ensures authorization == "" ==> r == Reply(401, "authorization header is required")
    ensures authorization != "" && BearerToken(authorization).None? ==> r == Reply(401, "invalid authorization header format")
    ensures BearerToken(authorization).Some? && validate(BearerToken(authorization).value).None? ==>
      r == Reply(401, "invalid or expired token")
    ensures r.Reply? ==> r.status == 401
    ensures r.Next? <==> BearerToken(authorization).Some? && validate(BearerToken(authorization).value).Some?
    ensures r.Next? ==> r.locals == Some(LocalsOf(validate(BearerToken(authorization).value).value))
  {
    if authorization == "" then Reply(401, "authorization header is required")
    else match BearerToken(authorization)
      case None => Reply(401, "invalid authorization header format")
      case Some(token) =>
        match validate(token)
        case None => Reply(401, "invalid or expired token")
        case Some(claims) => Next(Some(LocalsOf(claims)))
  }

  /**
    `OptionalJWTAuth`: never answers; attaches the token's user exactly when
    the header is a bearer header whose token validates.
  */
  function OptionalJWTAuth(authorization: string, validate: Validator): (r: Outcome)
    ensures r.Next?
    ensures r.locals.Some? <==> BearerToken(authorization).Some? && validate(BearerToken(authorization).value).Some?
    ensures r.locals.Some? ==> r.locals == Some(LocalsOf(validate(BearerToken(authorization).value).value))
  {
    if authorization == "" then Next(None)
    else match BearerToken(authorization)
      case None => Next(None)
      case Some(token) =>
        match validate(token)
        case None => Next(None)
        case Some(claims) => Next(Some(LocalsOf(claims)))
  }

  /** The optional middleware attaches a user exactly when the required one would accept, and the same user. */
  lemma OptionalAgreesWithRequired(authorization: string, validate: Validator)
    ensures OptionalJWTAuth(authorization, validate) ==
      if JWTAuth(authorization, validate).Next? then JWTAuth(authorization, validate) else Next(None)
  {
  }

  /**
    With the local connection as the auth service, a freshly issued access
    token sent as "Bearer <token>" is accepted during its lifetime and the
    request carries the user it was issued for.
  */
  lemma IssuedAccessTokenAccepted(conn: LocalAuthentication.LocalAuthConnection, codec: Jwt.Codec<LocalAuthentication.Claims>, token: string,
      userId: string, email: string, provider: string, issued: int, now: int)
    requires Jwt.Coherent(codec)
    requires codec.sign(conn.config.jwtSecret, Jwt.HS256,
      LocalAuthentication.AccessClaims(userId, email, provider, issued, conn.config.accessExpiry)) == Some(token)
    requires issued <= now < issued + conn.config.accessExpiry
    ensures var validate := (t: string) => ResultToOption(conn.ValidateAccessToken(codec, t, now));
      && JWTAuth(BearerPrefix + token, validate).Next?
      && JWTAuth(BearerPrefix + token, validate).locals.value.userId == userId
  {
    assert token != "" by {
      assert codec.parse(token) == Some(Jwt.Parsed(Jwt.HS256,
        LocalAuthentication.AccessClaims(userId, email, provider, issued, conn.config.accessExpiry)));
    }
    BearerTokenOfHeader(token);
    LocalAuthentication.AccessTokenRoundTrip(conn, codec, token, userId, email, provider, issued, now);
  }

  function ResultToOption<T, E>(r: Result<T, E>): Option<T>
  {
    match r
    case Ok(v) => Some(v)
    case Err(_) => None
  }
}
