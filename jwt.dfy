/**
  Signed tokens (RFC 7519) as the gateway uses them through its JWT library,
  with the cryptography abstracted. A `Codec` bundles the library's three
  capabilities: sign a claims value under a key with an algorithm, parse a
  compact token into its header algorithm and claims (segments, JSON and a
  registered algorithm, no signature check), and check a token's signature
  under a key. `ParseWithClaims` is the library's parse-and-validate call
  with the gateway's key function, which accepts only the HMAC family.
*/
module Jwt {
  import opened Wrappers

  /** The signing algorithms the library registers (section 3.1 of RFC 7518, and EdDSA). */
  datatype Alg =
    | HS256 | HS384 | HS512
    | RS256 | RS384 | RS512
    | ES256 | ES384 | ES512
    | PS256 | PS384 | PS512
    | EdDSA | NoneAlg

  /** The library's `*SigningMethodHMAC`: HS256, HS384 and HS512. */
  predicate IsHmac(a: Alg)
  {
    a == HS256 || a == HS384 || a == HS512
  }

  /**
    The registered claims the gateway sets: exp, iat, nbf as Unix seconds when
    present, and the token identifier (jti), "" when absent.
  */
  datatype Registered = Registered(expiresAt: Option<int>, issuedAt: Option<int>, notBefore: Option<int>, id: string)

  /** Registered claims of a token issued at `now` that lives for `ttl` seconds, without a jti. */
  function IssuedAt(now: int, ttl: int): Registered
  {
    Registered(Some(now + ttl), Some(now), Some(now), "")
  }

  datatype Parsed<C> = Parsed(alg: Alg, claims: C)

  datatype Codec<!C> = Codec(
    sign: (string, Alg, C) -> Option<string>,
    parse: string -> Option<Parsed<C>>,
    verify: (string, string) -> bool)

  /**
    What any correct library guarantees: the empty string is no token (it
    has no segments), and a token it signed parses back to the algorithm and
    claims it signed, and its signature checks under the same key.
  */
  ghost predicate Coherent<C(!new)>(codec: Codec<C>)
  {
    && codec.parse("").None?
    && (forall key, alg, c | codec.sign(key, alg, c).Some? ::
          && codec.parse(codec.sign(key, alg, c).value) == Some(Parsed(alg, c))
          && codec.verify(key, codec.sign(key, alg, c).value))
  }

  datatype JwtError =
    | Malformed                  // segments, encoding, JSON or unknown algorithm
    | UnexpectedSigningMethod    // rejected by the key function
    | SignatureInvalid
    | Expired                    // now is not before exp
    | NotValidYet                // now is before nbf

  /**
    The library's default claims validation, without leeway: a present exp
    must lie after now, a present nbf must not lie after now; iat is not checked.
  */
  function CheckTimes(r: Registered, now: int): (e: Option<JwtError>)
    ensures e.None? <==> (r.expiresAt.Some? ==> now < r.expiresAt.value) && (r.notBefore.Some? ==> r.notBefore.value <= now)
  {
    if r.expiresAt.Some? && !(now < r.expiresAt.value) then Some(Expired)
    else if r.notBefore.Some? && now < r.notBefore.value then Some(NotValidYet)
    else None
  }

  /**
    `jwt.ParseWithClaims` with the key function that returns `key` for HMAC
    tokens and an error for any other algorithm; `registered` projects the
    registered claims out of a claims value.
  */
  function ParseWithClaims<C>(codec: Codec<C>, key: string, token: string, now: int, registered: C -> Registered): (r: Result<C, JwtError>)
    ensures r.Ok? <==>
      && codec.parse(token).Some?
      && IsHmac(codec.parse(token).value.alg)
      && codec.verify(key, token)
      && CheckTimes(registered(codec.parse(token).value.claims), now).None?
    ensures r.Ok? ==> r.value == codec.parse(token).value.claims
    ensures codec.parse(token).Some? && !IsHmac(codec.parse(token).value.alg) ==> r == Err(UnexpectedSigningMethod)
  {
    match codec.parse(token)
    case None => Err(Malformed)
    case Some(p) =>
      if !IsHmac(p.alg) then Err(UnexpectedSigningMethod)
      else if !codec.verify(key, token) then Err(SignatureInvalid)
      else match CheckTimes(registered(p.claims), now)
        case Some(e) => Err(e)
        case None => Ok(p.claims)
  }

  /** Round trip: an HMAC token this codec signed validates under the same key, within its time window, to the signed claims. */
  lemma SignedTokenValidates<C(!new)>(codec: Codec<C>, key: string, alg: Alg, c: C, now: int, registered: C -> Registered)
    requires Coherent(codec) && IsHmac(alg)
    requires codec.sign(key, alg, c).Some?
    requires CheckTimes(registered(c), now).None?
    ensures ParseWithClaims(codec, key, codec.sign(key, alg, c).value, now, registered) == Ok(c)
  {
  }
}
