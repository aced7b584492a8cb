/** Token claims and their validation. A token carries the registered claims
    `iat`, `exp`, `iss` and `aud` of section 4.1 of RFC 7519, the user, the
    application and a refresh flag. Signing and verification (HS256, section 3.2
    of RFC 7518) belong to a library; the model sees them as a codec. */
module Tokens {
  import opened Wrappers

  /** The `user` claim: exactly these three fields. */
  datatype ClaimUser = ClaimUser(id: int, username: string, email: string)

  datatype Claims = Claims(
    iat: int, exp: int, iss: string, aud: string, user: ClaimUser, applicationId: int,
    /** The `is_refresh` claim, absent when the token does not carry it. */
    isRefresh: Option<Json>)

  /** What the library's decoder reports for a token at a given time. */
  datatype DecodeOutcome = Valid(claims: Claims) | Expired | BadSignature | NotYetValid | Malformed

  /** The signing library keyed with the secret: `JWT::encode` and `JWT::decode`. */
  datatype Codec = Codec(encode: Claims -> string, decode: (string, int) -> DecodeOutcome)

  /** How the decoder judges the claims of a token it signed itself: a token
      issued in the future is refused, one whose `exp` has been reached has
      expired, any other yields its claims unchanged. */
  function Judge(c: Claims, now: int): (o: DecodeOutcome)
    ensures o.Valid? <==> c.iat <= now < c.exp
    ensures o.Valid? ==> o.claims == c
    ensures o == Expired <==> c.iat <= now && c.exp <= now
  {
    if now < c.iat then NotYetValid
    else if c.exp <= now then Expired
    else Valid(c)
  }

  /** The codec decodes what it encoded as the library does. */
  ghost predicate Faithful(codec: Codec) {
    forall c: Claims, now: int :: codec.decode(codec.encode(c), now) == Judge(c, now)
  }

  /** The constructor's configuration: `APP_URL` is both issuer and audience. */
  datatype JwtConfig = JwtConfig(appUrl: string, expiration: int, refreshExpiration: int)

  datatype TokenPair = TokenPair(accessToken: string, refreshToken: string, expiresIn: int, tokenType: string)

  const BearerType := "Bearer"

  /** The payload `generateToken` signs. */
  function TokenClaims(config: JwtConfig, user: ClaimUser, applicationId: int, issuedAt: int, expire: int,
                       isRefresh: bool): (c: Claims)
    ensures c.iat == issuedAt && c.exp == expire
    ensures c.iss == config.appUrl && c.aud == config.appUrl
    ensures c.user == user && c.applicationId == applicationId && c.isRefresh == Some(JBool(isRefresh))
  {
    Claims(issuedAt, expire, config.appUrl, config.appUrl, user, applicationId, Some(JBool(isRefresh)))
  }

  function AccessClaims(config: JwtConfig, user: ClaimUser, applicationId: int, now: int): Claims {
    TokenClaims(config, user, applicationId, now, now + config.expiration, false)
  }

  function RefreshClaims(config: JwtConfig, user: ClaimUser, applicationId: int, now: int): Claims {
    TokenClaims(config, user, applicationId, now, now + config.refreshExpiration, true)
  }

  /** `generateTokens` at time `now`: one access and one refresh token issued
      together for the same user and application. */
  function GenerateTokens(config: JwtConfig, codec: Codec, user: ClaimUser, applicationId: int, now: int)
    : (p: TokenPair)
    ensures p.accessToken == codec.encode(AccessClaims(config, user, applicationId, now))
    ensures p.refreshToken == codec.encode(RefreshClaims(config, user, applicationId, now))
    ensures p.expiresIn == config.expiration && p.tokenType == BearerType
  {
    TokenPair(codec.encode(AccessClaims(config, user, applicationId, now)),
              codec.encode(RefreshClaims(config, user, applicationId, now)),
              config.expiration, BearerType)
  }

  /** The two payloads differ only in `exp` and the refresh flag. */
  lemma PairSharesClaims(config: JwtConfig, user: ClaimUser, applicationId: int, now: int)
    ensures var a, r := AccessClaims(config, user, applicationId, now), RefreshClaims(config, user, applicationId, now);
      && a.iat == r.iat == now
      && a.exp == now + config.expiration && r.exp == now + config.refreshExpiration
      && a.iss == r.iss == a.aud == r.aud == config.appUrl
      && a.user == r.user == user && a.applicationId == r.applicationId == applicationId
      && !IsRefreshToken(a) && IsRefreshToken(r)
  {
  }

  const TokenExpired := "Token has expired"
  const InvalidSignature := "Invalid token signature"
  const InvalidToken := "Invalid token"

  /** `validateToken`: the decoder's failures become the three messages. */
  function ValidateToken(codec: Codec, token: string, now: int): (r: Result<Claims>)
    ensures codec.decode(token, now).Valid? <==> r.Ok?
    ensures r.Ok? ==> r.value == codec.decode(token, now).claims
    ensures codec.decode(token, now) == Expired <==> r == Err(Exception(TokenExpired))
    ensures codec.decode(token, now) == BadSignature <==> r == Err(Exception(InvalidSignature))
    ensures codec.decode(token, now) in {NotYetValid, Malformed} <==> r == Err(Exception(InvalidToken))
  {
    match codec.decode(token, now)
    case Valid(c) => Ok(c)
    case Expired => Err(Exception(TokenExpired))
    case BadSignature => Err(Exception(InvalidSignature))
    case NotYetValid => Err(Exception(InvalidToken))
    case Malformed => Err(Exception(InvalidToken))
  }

  /** `isRefreshToken`: the flag is present and is the boolean `true`; the
      comparison is strict, so no other JSON value counts. */
  predicate IsRefreshToken(c: Claims)
    ensures IsRefreshToken(c) ==> c.isRefresh.Some?
    ensures c.isRefresh.Some? && c.isRefresh.value != JBool(true) ==> !IsRefreshToken(c)
  {
    c.isRefresh == Some(JBool(true))
  }

  /** How a JSON object of the payload reaches PHP code: `JWT::decode` yields
      `stdClass` objects, and `(array)$decoded` converts only the outermost one. */
  datatype DecodedUser = AsArray(fields: ClaimUser) | AsObject(fields: ClaimUser)

  /** `$user['id']`: indexing an array reads the field; indexing an object throws. */
  function IndexId(u: DecodedUser): Result<int> {
    match u
    case AsArray(f) => Ok(f.id)
    case AsObject(_) => Err(ObjectAsArray)
  }

  /** `getUserId` as written: `$decoded['user']['id']` on the `user` claim as it
      comes out of `(array)JWT::decode(...)`. */
  function GetUserIdAsWritten(c: Claims): (r: Result<int>)
    ensures r == Err(ObjectAsArray)
  {
    IndexId(AsObject(c.user))
  }

  /** As written, the user id of no token can be read: even the access token
      of a freshly issued pair, while live, makes `getUserId` throw. */
  lemma UserIdUnreadableAsWritten(config: JwtConfig, codec: Codec, user: ClaimUser, applicationId: int, now: int, t: int)
    requires Faithful(codec)
    requires now <= t < now + config.expiration
    ensures ValidateToken(codec, GenerateTokens(config, codec, user, applicationId, now).accessToken, t).Ok?
    ensures GetUserIdAsWritten(ValidateToken(codec, GenerateTokens(config, codec, user, applicationId, now).accessToken, t).value)
      == Err(ObjectAsArray)
  {
    AccessTokenValidates(config, codec, user, applicationId, now, t);
  }

  /** `getUserId` reading the `user` claim as the object it is (`->id`): the
      id that indexing it would give, were it the array the code expects. */
  function GetUserId(c: Claims): (id: int)
    ensures IndexId(AsArray(c.user)) == Ok(id)
  {
    c.user.id
  }

  function GetApplicationId(c: Claims): int {
    c.applicationId
  }

  /** The accessors read back what `generateToken` put in the payload. */
  lemma ClaimsReadBack(config: JwtConfig, user: ClaimUser, applicationId: int, issuedAt: int, expire: int,
                       isRefresh: bool)
    ensures var c := TokenClaims(config, user, applicationId, issuedAt, expire, isRefresh);
      && GetUserId(c) == user.id && GetApplicationId(c) == applicationId
      && (IsRefreshToken(c) <==> isRefresh)
  {
  }

  /** An access token of a pair validates, while it is live, to its own claims:
      not a refresh token, and naming the user and application it was issued for. */
  lemma AccessTokenValidates(config: JwtConfig, codec: Codec, user: ClaimUser, applicationId: int, now: int, t: int)
    requires Faithful(codec)
    requires now <= t < now + config.expiration
    ensures var r := ValidateToken(codec, GenerateTokens(config, codec, user, applicationId, now).accessToken, t);
      && r == Ok(AccessClaims(config, user, applicationId, now))
      && !IsRefreshToken(r.value)
      && GetUserId(r.value) == user.id && GetApplicationId(r.value) == applicationId
  {
    var c := AccessClaims(config, user, applicationId, now);
    assert codec.decode(codec.encode(c), t) == Judge(c, t);
  }

  /** The refresh token of a pair validates, while it is live, to a refresh token. */
  lemma RefreshTokenValidates(config: JwtConfig, codec: Codec, user: ClaimUser, applicationId: int, now: int, t: int)
    requires Faithful(codec)
    requires now <= t < now + config.refreshExpiration
    ensures var r := ValidateToken(codec, GenerateTokens(config, codec, user, applicationId, now).refreshToken, t);
      && r == Ok(RefreshClaims(config, user, applicationId, now))
      && IsRefreshToken(r.value)
      && GetUserId(r.value) == user.id && GetApplicationId(r.value) == applicationId
  {
    var c := RefreshClaims(config, user, applicationId, now);
    assert codec.decode(codec.encode(c), t) == Judge(c, t);
  }

  /** Once `exp` is reached the token reports "Token has expired". */
  lemma AccessTokenExpires(config: JwtConfig, codec: Codec, user: ClaimUser, applicationId: int, now: int, t: int)
    requires Faithful(codec)
    requires 0 <= config.expiration && now + config.expiration <= t
    ensures ValidateToken(codec, GenerateTokens(config, codec, user, applicationId, now).accessToken, t)
      == Err(Exception(TokenExpired))
  {
    var c := AccessClaims(config, user, applicationId, now);
    assert codec.decode(codec.encode(c), t) == Judge(c, t);
  }
}
