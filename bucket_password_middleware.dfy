/**
  The bucket gate in front of the file routes. A request names a bucket by
  its storage id; a bucket without a password is open, a protected one
  demands an X-Bucket-Access token issued for that very bucket, and a token
  bound to a login session (auth_token_id) is checked against the login
  token the request presents, when it presents one.
*/
module BucketPasswordMiddleware {
  import opened Wrappers
  import Jwt
  import BucketToken
  import AuthMiddleware
  import LocalAuthentication

  /** Let the request through, or answer it with a status and an error message. */
  datatype Decision = Pass | Deny(status: int, error: string)

  /**
    The session binding holds when the bucket token names no login token,
    when there is no auth service, when the request carries no bearer
    header, or when the bearer token validates and its jti is the one the
    bucket token names.
  */
  predicate SessionBindingHolds(claims: BucketToken.BucketAccessClaims, authorization: string, authService: Option<AuthMiddleware.Validator>)
  {
    || claims.authTokenId.None?
    || authService.None?
    || AuthMiddleware.BearerToken(authorization).None?
    || (var c := authService.value(AuthMiddleware.BearerToken(authorization).value);
        c.Some? && c.value.registered.id == claims.authTokenId.value)
  }

  /**
    `BucketPasswordAuth`: 400 without a storage id, 404 when the protection
    lookup fails, through for an open bucket; for a protected bucket 401
    unless the X-Bucket-Access token validates, names this bucket and its
    session binding holds.
    `protection` is the lookup's answer for the storage id: whether the
    bucket is protected, or None when the lookup failed.
  */
  function BucketPasswordAuth(
    storageId: string, protection: Option<bool>, bucketAccess: string, authorization: string,
    codec: Jwt.Codec<BucketToken.BucketAccessClaims>, secret: string, now: int,
    authService: Option<AuthMiddleware.Validator>): (r: Decision)
    ensures storageId == "" ==> r == Deny(400, "storage id required")
    ensures storageId != "" && protection.None? ==> r == Deny(404, "bucket not found")
    ensures storageId != "" && protection == Some(false) ==> r == Pass
    ensures storageId != "" && protection == Some(true) ==> (r == Pass <==>
      && BucketToken.ValidateBucketAccessToken(codec, secret, bucketAccess, now).Ok?
      && BucketToken.ValidateBucketAccessToken(codec, secret, bucketAccess, now).value.bucketId == storageId
      && SessionBindingHolds(BucketToken.ValidateBucketAccessToken(codec, secret, bucketAccess, now).value, authorization, authService))
    ensures storageId != "" && protection == Some(true) && r.Deny? ==> r.status == 401
  {
    if storageId == "" then Deny(400, "storage id required")
    else match protection
      case None => Deny(404, "bucket not found")
      case Some(false) => Pass
      case Some(true) =>
        if bucketAccess == "" then Deny(401, "bucket access token required")
        else match BucketToken.ValidateBucketAccessToken(codec, secret, bucketAccess, now)
          case Err(_) => Deny(401, "invalid or expired bucket access token")
          case Ok(claims) =>
            if claims.bucketId != storageId then Deny(401, "token bucket_id mismatch")
            else if claims.authTokenId.Some? && authService.Some? && AuthMiddleware.BearerToken(authorization).Some? then
              match authService.value(AuthMiddleware.BearerToken(authorization).value)
              case None => Deny(401, "linked auth token is invalid")
              case Some(authClaims) =>
                if authClaims.registered.id != claims.authTokenId.value then Deny(401, "auth token mismatch")
                else Pass
            else Pass
  }

  /** A bucket token issued for one bucket never opens another protected bucket. */
  lemma CrossBucketRejected(
    codec: Jwt.Codec<BucketToken.BucketAccessClaims>, secret: string, issuedFor: string,
    userId: Option<string>, authTokenId: Option<string>, privileges: seq<string>, issued: int,
    storageId: string, authorization: string, now: int, authService: Option<AuthMiddleware.Validator>)
    requires Jwt.Coherent(codec)
    requires BucketToken.GenerateBucketAccessToken(codec, secret, issuedFor, userId, authTokenId, privileges, issued).Ok?
    requires storageId != "" && storageId != issuedFor
    ensures var token := BucketToken.GenerateBucketAccessToken(codec, secret, issuedFor, userId, authTokenId, privileges, issued).value;
      BucketPasswordAuth(storageId, Some(true), token, authorization, codec, secret, now, authService).Deny?
  {
    var token := BucketToken.GenerateBucketAccessToken(codec, secret, issuedFor, userId, authTokenId, privileges, issued).value;
    var v := BucketToken.ValidateBucketAccessToken(codec, secret, token, now);
    if v.Ok? {
      assert v.value == BucketToken.IssuedClaims(issuedFor, userId, authTokenId, privileges, issued);
    }
  }

  /** A token issued for the bucket, not bound to a session, opens it during its 30 minutes whatever the other headers say. */
  lemma IssuedTokenAdmits(
    codec: Jwt.Codec<BucketToken.BucketAccessClaims>, secret: string, storageId: string,
    userId: Option<string>, privileges: seq<string>, issued: int,
    authorization: string, now: int, authService: Option<AuthMiddleware.Validator>)
    requires Jwt.Coherent(codec)
    requires BucketToken.GenerateBucketAccessToken(codec, secret, storageId, userId, None, privileges, issued).Ok?
    requires issued <= now < issued + BucketToken.BucketTokenExpiry
    ensures var token := BucketToken.GenerateBucketAccessToken(codec, secret, storageId, userId, None, privileges, issued).value;
      BucketPasswordAuth(storageId, Some(true), token, authorization, codec, secret, now, authService) == Pass
  {
    BucketToken.BucketTokenRoundTrip(codec, secret, storageId, userId, None, privileges, issued, now);
  }

  /**
    A bucket token bound to login token `jti` is refused when the request
    presents a bearer token that validates with a different jti, and when it
    presents one that does not validate.
  */
  lemma BindingEnforcedWhenPresented(
    storageId: string, bucketAccess: string, authorization: string,
    codec: Jwt.Codec<BucketToken.BucketAccessClaims>, secret: string, now: int, validate: AuthMiddleware.Validator)
    requires storageId != ""
    requires BucketToken.ValidateBucketAccessToken(codec, secret, bucketAccess, now).Ok?
    requires BucketToken.ValidateBucketAccessToken(codec, secret, bucketAccess, now).value.bucketId == storageId
    requires BucketToken.ValidateBucketAccessToken(codec, secret, bucketAccess, now).value.authTokenId.Some?
    requires AuthMiddleware.BearerToken(authorization).Some?
    ensures var jti := BucketToken.ValidateBucketAccessToken(codec, secret, bucketAccess, now).value.authTokenId.value;
      var c := validate(AuthMiddleware.BearerToken(authorization).value);
      && (c.None? ==>
            BucketPasswordAuth(storageId, Some(true), bucketAccess, authorization, codec, secret, now, Some(validate))
              == Deny(401, "linked auth token is invalid"))
      && (c.Some? && c.value.registered.id != jti ==>
            BucketPasswordAuth(storageId, Some(true), bucketAccess, authorization, codec, secret, now, Some(validate))
              == Deny(401, "auth token mismatch"))
  {
  }

  /** Without a bearer header the session binding is not checked: the decision is the one for an unbound token. */
  lemma BindingSkippedWithoutBearer(
    storageId: string, protection: Option<bool>, bucketAccess: string, authorization: string,
    codec: Jwt.Codec<BucketToken.BucketAccessClaims>, secret: string, now: int, authService: Option<AuthMiddleware.Validator>)
    requires AuthMiddleware.BearerToken(authorization).None?
    ensures BucketPasswordAuth(storageId, protection, bucketAccess, authorization, codec, secret, now, authService)
      == BucketPasswordAuth(storageId, protection, bucketAccess, "", codec, secret, now, None)
  {
  }

  /**
    The session id the bucket-login handler binds into a bucket token: the
    jti of the caller's login claims, when there are claims and the jti is
    non-empty.
  */
  function AuthTokenIdOf(login: Option<LocalAuthentication.Claims>): (r: Option<string>)
    ensures r.Some? <==> login.Some? && login.value.registered.id != ""
    ensures r.Some? ==> r.value == login.value.registered.id
  {
    if login.Some? && login.value.registered.id != "" then Some(login.value.registered.id) else None
  }

  /**
    Access tokens from `GenerateTokens` carry no jti, so a bucket token
    obtained with one is never bound to the session, and the bucket gate
    then ignores the Authorization header altogether.
  */
  lemma LocalLoginNeverBinds(
    userId: string, email: string, provider: string, loginIssued: int, accessExpiry: int,
    storageId: string, protection: Option<bool>, bucketAccess: string, authorization: string,
    codec: Jwt.Codec<BucketToken.BucketAccessClaims>, secret: string, now: int, authService: Option<AuthMiddleware.Validator>)
    requires var v := BucketToken.ValidateBucketAccessToken(codec, secret, bucketAccess, now);
      v.Ok? ==> v.value.authTokenId == AuthTokenIdOf(Some(LocalAuthentication.AccessClaims(userId, email, provider, loginIssued, accessExpiry)))
    ensures AuthTokenIdOf(Some(LocalAuthentication.AccessClaims(userId, email, provider, loginIssued, accessExpiry))).None?
    ensures BucketPasswordAuth(storageId, protection, bucketAccess, authorization, codec, secret, now, authService)
      == BucketPasswordAuth(storageId, protection, bucketAccess, "", codec, secret, now, None)
  {
  }
}
