/**
  Bucket access tokens: short-lived HS256 tokens that prove a client knew a
  protected bucket's password. The signing secret (the JWT_SECRET setting)
  and the current time are parameters; signing and parsing go through a
  `Jwt.Codec`.
*/
module BucketToken {
  import opened Wrappers
  import Jwt

  /** Thirty minutes, in seconds. */
  const BucketTokenExpiry: int := 30 * 60

  /** The token's claims: bucket_id, privileges, optional user_id and auth_token_id (the jti of the login token), and the registered claims. */
  datatype BucketAccessClaims = BucketAccessClaims(
    bucketId: string,
    privileges: seq<string>,
    userId: Option<string>,
    authTokenId: Option<string>,
    registered: Jwt.Registered)

  function RegisteredOf(c: BucketAccessClaims): Jwt.Registered
  {
    c.registered
  }

  datatype TokenError =
    | BucketIdRequired
    | SecretRequired
    | SigningFailed
    | TokenRequired
    | InvalidToken(reason: Jwt.JwtError)

  /** The claims of a token issued at `now`: valid from now, expiring 30 minutes later, without a jti. */
  function IssuedClaims(bucketId: string, userId: Option<string>, authTokenId: Option<string>, privileges: seq<string>, now: int): BucketAccessClaims
  {
    BucketAccessClaims(bucketId, privileges, userId, authTokenId, Jwt.IssuedAt(now, BucketTokenExpiry))
  }

  /**
    `GenerateBucketAccessToken`: refuses an empty bucket id, then an empty
    secret; otherwise signs the issued claims with HS256, and a correct
    library yields a token that parses back to exactly those claims.
  */
  function GenerateBucketAccessToken(
    codec: Jwt.Codec<BucketAccessClaims>, secret: string,
    bucketId: string, userId: Option<string>, authTokenId: Option<string>, privileges: seq<string>, now: int): (r: Result<string, TokenError>)
    ensures bucketId == "" ==> r == Err(BucketIdRequired)
    ensures bucketId != "" && secret == "" ==> r == Err(SecretRequired)
    ensures r.Ok? <==> bucketId != "" && secret != "" && codec.sign(secret, Jwt.HS256, IssuedClaims(bucketId, userId, authTokenId, privileges, now)).Some?
    ensures r.Err? && bucketId != "" && secret != "" ==> r == Err(SigningFailed)
    ensures Jwt.Coherent(codec) && r.Ok? ==>
      && codec.parse(r.value) == Some(Jwt.Parsed(Jwt.HS256, IssuedClaims(bucketId, userId, authTokenId, privileges, now)))
      && codec.verify(secret, r.value)
  {
    if bucketId == "" then Err(BucketIdRequired)
    else if secret == "" then Err(SecretRequired)
    else match codec.sign(secret, Jwt.HS256, IssuedClaims(bucketId, userId, authTokenId, privileges, now))
      case None => Err(SigningFailed)
      case Some(t) => Ok(t)
  }

  /**
    `ValidateBucketAccessToken`: refuses an empty token, then an empty
    secret; otherwise accepts exactly the HMAC-signed tokens whose signature
    checks under the secret and whose time window holds now, and returns
    their claims.
  */
  function ValidateBucketAccessToken(codec: Jwt.Codec<BucketAccessClaims>, secret: string, token: string, now: int): (r: Result<BucketAccessClaims, TokenError>)
    ensures token == "" ==> r == Err(TokenRequired)
    ensures token != "" && secret == "" ==> r == Err(SecretRequired)
    ensures r.Ok? <==>
      && token != "" && secret != ""
      && codec.parse(token).Some?
      && Jwt.IsHmac(codec.parse(token).value.alg)
      && codec.verify(secret, token)
      && Jwt.CheckTimes(codec.parse(token).value.claims.registered, now).None?
    ensures r.Ok? ==> r.value == codec.parse(token).value.claims
  {
    if token == "" then Err(TokenRequired)
    else if secret == "" then Err(SecretRequired)
    else match Jwt.ParseWithClaims(codec, secret, token, now, RegisteredOf)
      case Err(e) => Err(InvalidToken(e))
      case Ok(c) => Ok(c)
  }

  /** A token issued at `issued` validates, to the claims it was issued with, at any time in [issued, issued + 30 minutes). */
  lemma BucketTokenRoundTrip(
    codec: Jwt.Codec<BucketAccessClaims>, secret: string,
    bucketId: string, userId: Option<string>, authTokenId: Option<string>, privileges: seq<string>, issued: int, now: int)
    requires Jwt.Coherent(codec)
    requires GenerateBucketAccessToken(codec, secret, bucketId, userId, authTokenId, privileges, issued).Ok?
    requires issued <= now < issued + BucketTokenExpiry
    ensures ValidateBucketAccessToken(codec, secret, GenerateBucketAccessToken(codec, secret, bucketId, userId, authTokenId, privileges, issued).value, now)
      == Ok(IssuedClaims(bucketId, userId, authTokenId, privileges, issued))
  {
    var c := IssuedClaims(bucketId, userId, authTokenId, privileges, issued);
    var t := GenerateBucketAccessToken(codec, secret, bucketId, userId, authTokenId, privileges, issued).value;
    assert codec.parse(t) == Some(Jwt.Parsed(Jwt.HS256, c)) && codec.verify(secret, t);
    assert Jwt.ParseWithClaims(codec, secret, t, now, RegisteredOf) == Ok(c);
  }

  /** From 30 minutes after issue on, the same token is refused as expired. */
  lemma BucketTokenExpires(
    codec: Jwt.Codec<BucketAccessClaims>, secret: string,
    bucketId: string, userId: Option<string>, authTokenId: Option<string>, privileges: seq<string>, issued: int, now: int)
    requires Jwt.Coherent(codec)
    requires GenerateBucketAccessToken(codec, secret, bucketId, userId, authTokenId, privileges, issued).Ok?
    requires issued + BucketTokenExpiry <= now
    ensures ValidateBucketAccessToken(codec, secret, GenerateBucketAccessToken(codec, secret, bucketId, userId, authTokenId, privileges, issued).value, now)
      == Err(InvalidToken(Jwt.Expired))
  {
    var c := IssuedClaims(bucketId, userId, authTokenId, privileges, issued);
    var t := GenerateBucketAccessToken(codec, secret, bucketId, userId, authTokenId, privileges, issued).value;
    assert codec.parse(t) == Some(Jwt.Parsed(Jwt.HS256, c)) && codec.verify(secret, t);
    assert Jwt.ParseWithClaims(codec, secret, t, now, RegisteredOf) == Err(Jwt.Expired);
  }

  /** Before its issue time the same token is refused as not yet valid. */
  lemma BucketTokenNotValidBeforeIssue(
    codec: Jwt.Codec<BucketAccessClaims>, secret: string,
    bucketId: string, userId: Option<string>, authTokenId: Option<string>, privileges: seq<string>, issued: int, now: int)
    requires Jwt.Coherent(codec)
    requires GenerateBucketAccessToken(codec, secret, bucketId, userId, authTokenId, privileges, issued).Ok?
    requires now < issued
    ensures ValidateBucketAccessToken(codec, secret, GenerateBucketAccessToken(codec, secret, bucketId, userId, authTokenId, privileges, issued).value, now)
      == Err(InvalidToken(Jwt.NotValidYet))
  {
    var c := IssuedClaims(bucketId, userId, authTokenId, privileges, issued);
    var t := GenerateBucketAccessToken(codec, secret, bucketId, userId, authTokenId, privileges, issued).value;
    assert codec.parse(t) == Some(Jwt.Parsed(Jwt.HS256, c)) && codec.verify(secret, t);
    assert Jwt.ParseWithClaims(codec, secret, t, now, RegisteredOf) == Err(Jwt.NotValidYet);
  }

  /** A token whose header names a non-HMAC algorithm is refused whatever its signature. */
  lemma NonHmacTokenRejected(codec: Jwt.Codec<BucketAccessClaims>, secret: string, token: string, now: int)
    requires token != "" && secret != ""
    requires codec.parse(token).Some? && !Jwt.IsHmac(codec.parse(token).value.alg)
    ensures ValidateBucketAccessToken(codec, secret, token, now) == Err(InvalidToken(Jwt.UnexpectedSigningMethod))
  {
  }

  /** Every token this module issues carries a 30-minute window and no jti. */
  lemma IssuedWindow(bucketId: string, userId: Option<string>, authTokenId: Option<string>, privileges: seq<string>, now: int)
    ensures var r := IssuedClaims(bucketId, userId, authTokenId, privileges, now).registered;
      && r.expiresAt == Some(now + 1800) && r.notBefore == Some(now) && r.issuedAt == Some(now)
      && r.id == ""
  {
  }
}
