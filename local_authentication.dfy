/**
  The local authentication connection: its configuration, issuing an access
  token (HS256 JWT) and an opaque refresh token whose SHA-256 digest is
  stored, validating access tokens, and checking that a user id names a live
  user. The clock, the random source, the uuid generator and SHA-256 are
  parameters.
*/
module LocalAuthentication {
  import opened Wrappers
  import Jwt
  import Hex
  import AuthRepository

  /** The default lifetimes, in seconds: 15 minutes and 7 days. */
  const DefaultAccessExpiry: int := 15 * 60
  const DefaultRefreshExpiry: int := 7 * 24 * 60 * 60

  /** Length, in bytes, of the random refresh token and of a SHA-256 digest. */
  const RefreshTokenBytes: nat := 32

  type Bytes32 = b: seq<byte> | |b| == 32 witness seq(32, _ => 0)

  /** SHA-256 of a string's bytes. */
  type Sha256 = string -> Bytes32

  /** The access token's claims: user_id, email, provider and the registered claims. */
  datatype Claims = Claims(userId: string, email: string, provider: string, registered: Jwt.Registered)

  function RegisteredOf(c: Claims): Jwt.Registered
  {
    c.registered
  }

  datatype TokenPair = TokenPair(accessToken: string, refreshToken: string)

  datatype Config = Config(jwtSecret: string, accessExpiry: int, refreshExpiry: int)

  datatype ConfigError = RepositoryUnavailable | SecretRequired

  /**
    `NewLocalAuthConnection` without the database: fails when the repository
    could not be opened, then when the secret is empty; a lifetime setting
    that does not parse as a duration falls back to its default.
    `accessSetting` and `refreshSetting` are the parsed settings, in seconds.
  */
  function NewConfig(repositoryOpened: bool, jwtSecret: string, accessSetting: Option<int>, refreshSetting: Option<int>): (r: Result<Config, ConfigError>)
    ensures !repositoryOpened ==> r == Err(RepositoryUnavailable)
    ensures repositoryOpened && jwtSecret == "" ==> r == Err(SecretRequired)
    ensures r.Ok? <==> repositoryOpened && jwtSecret != ""
    ensures r.Ok? ==> r.value.jwtSecret == jwtSecret
    ensures r.Ok? ==> r.value.accessExpiry == (if accessSetting.Some? then accessSetting.value else 15 * 60)
    ensures r.Ok? ==> r.value.refreshExpiry == (if refreshSetting.Some? then refreshSetting.value else 7 * 24 * 3600)
  {
    if !repositoryOpened then Err(RepositoryUnavailable)
    else if jwtSecret == "" then Err(SecretRequired)
    else
      var access := match accessSetting case Some(d) => d case None => DefaultAccessExpiry;
      var refresh := match refreshSetting case Some(d) => d case None => DefaultRefreshExpiry;
      Ok(Config(jwtSecret, access, refresh))
  }

  /** The claims of an access token issued at `now`: no jti. */
  function AccessClaims(userId: string, email: string, provider: string, now: int, accessExpiry: int): Claims
  {
    Claims(userId, email, provider, Jwt.IssuedAt(now, accessExpiry))
  }

  datatype GenerateError = SignFailed | RandomFailed | StoreFailed

  class LocalAuthConnection {
    const repo: AuthRepository.LocalAuthRepository
    const config: Config

    constructor (repo: AuthRepository.LocalAuthRepository, config: Config)
      ensures this.repo == repo && this.config == config
    {
      this.repo := repo;
      this.config := config;
    }

    /**
      `GenerateTokens`: signs the access token, draws 32 random bytes whose
      lower-case hex is the refresh token, and stores one refresh-token row
      holding the hex SHA-256 of that text (never the token itself), with id
      `newId`. Any failure returns no pair; only a failed store can leave
      nothing behind after the random draw, and it stores nothing.
    */
    method GenerateTokens(
      codec: Jwt.Codec<Claims>, sha256: Sha256,
      userId: string, email: string, provider: string,
      now: int, random: Option<Bytes32>, newId: string) returns (r: Result<TokenPair, GenerateError>)
      modifies repo
      ensures repo.users == old(repo.users) && repo.oauthSessions == old(repo.oauthSessions)
      ensures codec.sign(config.jwtSecret, Jwt.HS256, AccessClaims(userId, email, provider, now, config.accessExpiry)).None? ==>
        r == Err(SignFailed)
      ensures codec.sign(config.jwtSecret, Jwt.HS256, AccessClaims(userId, email, provider, now, config.accessExpiry)).Some? && random.None? ==>
        r == Err(RandomFailed)
      ensures r.Err? ==> repo.refreshTokens == old(repo.refreshTokens)
      ensures r.Ok? ==> (
        && random.Some?
        && codec.sign(config.jwtSecret, Jwt.HS256, AccessClaims(userId, email, provider, now, config.accessExpiry))
          == Some(r.value.accessToken)
        && r.value.refreshToken == Hex.Encode(random.value)
        && repo.refreshTokens == old(repo.refreshTokens) + [
             AuthRepository.RefreshToken(newId, userId, Hex.Encode(sha256(r.value.refreshToken)),
               now + config.refreshExpiry, now, None, None)])
      ensures r.Ok? ==> |r.value.refreshToken| == 64 && forall i :: 0 <= i < 64 ==> Hex.IsLowerHex(r.value.refreshToken[i])
    {
      var claims := AccessClaims(userId, email, provider, now, config.accessExpiry);
      var access := codec.sign(config.jwtSecret, Jwt.HS256, claims);
      if access.None? {
        return Err(SignFailed);
      }
      if random.None? {
        return Err(RandomFailed);
      }
      var refreshToken := Hex.Encode(random.value);
      var tokenHash := Hex.Encode(sha256(refreshToken));
      var record := AuthRepository.RefreshToken(newId, userId, tokenHash, now + config.refreshExpiry, now, None, None);
      var stored := repo.CreateRefreshToken(record);
      if !stored {
        return Err(StoreFailed);
      }
      r := Ok(TokenPair(access.value, refreshToken));
    }

    /**
      `ValidateAccessToken`: accepts exactly the HMAC-signed tokens whose
      signature checks under the configured secret and whose window holds
      now, and returns their claims.
    */
    function ValidateAccessToken(codec: Jwt.Codec<Claims>, token: string, now: int): (r: Result<Claims, Jwt.JwtError>)
      ensures r.Ok? <==>
        && codec.parse(token).Some?
        && Jwt.IsHmac(codec.parse(token).value.alg)
        && codec.verify(config.jwtSecret, token)
        && Jwt.CheckTimes(codec.parse(token).value.claims.registered, now).None?
      ensures r.Ok? ==> r.value == codec.parse(token).value.claims
    {
      Jwt.ParseWithClaims(codec, config.jwtSecret, token, now, RegisteredOf)
    }

    /** `ValidateUserID`: true exactly when the id is non-empty and names a user that is not soft-deleted. */
    function ValidateUserID(userId: string): (r: bool)
      reads repo
      ensures r <==> userId != "" && exists i :: 0 <= i < |repo.users| && repo.users[i].id == userId && repo.users[i].deletedAt.None?
    {
      if userId == "" then false else repo.GetUserByID(userId).Some?
    }

    /**
      After `GenerateTokens` succeeds, looking the refresh token up by the
      hash of the text handed to the client finds the stored row, unless an
      earlier live row has the same hash.
    */
    lemma RefreshTokenFindable(sha256: Sha256, pair: TokenPair, newId: string, userId: string, now: int, before: seq<AuthRepository.RefreshToken>)
      requires repo.refreshTokens == before + [AuthRepository.RefreshToken(newId, userId, Hex.Encode(sha256(pair.refreshToken)), now + config.refreshExpiry, now, None, None)]
      ensures repo.GetRefreshTokenByHash(Hex.Encode(sha256(pair.refreshToken))).Some?
      ensures (forall i :: 0 <= i < |before| ==> before[i].tokenHash != Hex.Encode(sha256(pair.refreshToken)) || before[i].revokedAt.Some?) ==>
        repo.GetRefreshTokenByHash(Hex.Encode(sha256(pair.refreshToken))).value.id == newId
    {
      var h := Hex.Encode(sha256(pair.refreshToken));
      assert repo.refreshTokens[|before|].tokenHash == h;
      if forall i :: 0 <= i < |before| ==> before[i].tokenHash != h || before[i].revokedAt.Some? {
        var t := repo.GetRefreshTokenByHash(h).value;
        assert t !in before;
      }
    }
  }

  /** An access token issued at `issued` validates to its claims during [issued, issued + accessExpiry), and carries no jti. */
  lemma AccessTokenRoundTrip(conn: LocalAuthConnection, codec: Jwt.Codec<Claims>, token: string,
      userId: string, email: string, provider: string, issued: int, now: int)
    requires Jwt.Coherent(codec)
    requires codec.sign(conn.config.jwtSecret, Jwt.HS256, AccessClaims(userId, email, provider, issued, conn.config.accessExpiry)) == Some(token)
    requires issued <= now < issued + conn.config.accessExpiry
    ensures conn.ValidateAccessToken(codec, token, now) == Ok(AccessClaims(userId, email, provider, issued, conn.config.accessExpiry))
    ensures conn.ValidateAccessToken(codec, token, now).value.registered.id == ""
  {
    var c := AccessClaims(userId, email, provider, issued, conn.config.accessExpiry);
    assert codec.parse(token) == Some(Jwt.Parsed(Jwt.HS256, c)) && codec.verify(conn.config.jwtSecret, token);
  }

  /** Distinct random draws give distinct refresh tokens. */
  lemma RefreshTokensDistinct(a: Bytes32, b: Bytes32)
    requires a != b
    ensures Hex.Encode(a) != Hex.Encode(b)
  {
    if Hex.Encode(a) == Hex.Encode(b) {
      Hex.EncodeInjective(a, b);
    }
  }
}
