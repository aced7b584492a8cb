/** The authentication service: password login against an application,
    refresh of a token pair, and the API-key check. */
module Authentication {
  import opened Wrappers
  import opened Tables
  import opened Store
  import opened AuditLog
  import opened Tokens
  import Hex
  import Applications

  const InvalidCredentials := "Invalid credentials"
  const InvalidRefreshToken := "Invalid refresh token"
  const InvalidApplication := "Invalid application"
  const UserNotFound := "User not found"

  /** Audit action names and detail keys. */
  const LoginFailed := "login_failed"
  const LoginSuccess := "login_success"
  const TokenRefresh := "token_refresh"
  const UsernameKey := "username"
  const ReasonKey := "reason"
  const InvalidCredentialsReason := "invalid_credentials"

  /** The three user columns a token and a login answer carry. */
  function ClaimUserOf(u: User): (c: ClaimUser)
    ensures c.id == u.id && c.username == u.username && c.email == u.email
  {
    ClaimUser(u.id, u.username, u.email)
  }

  /** The row `authenticate` fetches: the first user with that username, joined
      to the application row, so nothing at all when the application is missing. */
  function LoginRow(users: map<int, User>, nextUserId: int, applications: map<int, Application>,
                    username: string, applicationId: int): Option<User>
    requires IdsUnder(users, nextUserId)
  {
    if applicationId in applications then First(users, nextUserId, (u: User) => u.username == username) else None
  }

  /** The join yields a stored user with that username exactly when the
      application exists and some user has that username. */
  lemma LoginRowIsJoin(users: map<int, User>, nextUserId: int, applications: map<int, Application>,
                       username: string, applicationId: int)
    requires IdsUnder(users, nextUserId)
    ensures var r := LoginRow(users, nextUserId, applications, username, applicationId);
      && (r.Some? ==> (applicationId in applications && r.value.username == username
                       && exists k :: k in users && users[k] == r.value))
      && (r.None? <==> (applicationId !in applications || forall k :: k in users ==> users[k].username != username))
  {
    if applicationId in applications {
      var r := First(users, nextUserId, (u: User) => u.username == username);
    }
  }

  /** The audit rows of `authenticate`: a failure names no user and gives the reason. */
  function LoginFailedEvent(applicationId: int, username: string): LogData
  {
    Event(Some(applicationId), None, LoginFailed,
          map[UsernameKey := JStr(username), ReasonKey := JStr(InvalidCredentialsReason)])
  }

  function LoginSuccessEvent(applicationId: int, userId: int, username: string): LogData
  {
    Event(Some(applicationId), Some(userId), LoginSuccess, map[UsernameKey := JStr(username)])
  }

  /** What `authenticate` returns on success. */
  datatype Login = Login(user: ClaimUser, tokens: TokenPair)

  /** `validateApiKey`: the application exists and `hash_equals` its key with the given one. */
  function ValidateApiKey(applications: map<int, Application>, apiKey: string, applicationId: int): (r: bool)
    ensures r <==> applicationId in applications && applications[applicationId].apiKey == apiKey
  {
    applicationId in applications && applications[applicationId].apiKey == apiKey
  }

  /** The key a draw of random bytes produced validates; the key of any other
      draw does not, and neither does a string that is not 64 hex digits. */
  lemma OnlyTheIssuedKeyValidates(applications: map<int, Application>, next: int, applicationId: int,
                                  issued: seq<Hex.byte>, other: seq<Hex.byte>, guess: string)
    requires ApplicationTable(applications, next)
    requires applicationId in applications && |issued| == 32 && |other| == 32
    requires applications[applicationId].apiKey == Applications.NewApiKey(issued)
    ensures ValidateApiKey(applications, Applications.NewApiKey(issued), applicationId)
    ensures other != issued ==> !ValidateApiKey(applications, Applications.NewApiKey(other), applicationId)
    ensures !Hex.IsApiKey(guess) ==> !ValidateApiKey(applications, guess, applicationId)
  {
    if other != issued {
      Applications.NewApiKeyInjective(other, issued);
    }
  }

  /** The checks of `refreshToken` before it issues a pair, in their order:
      the token must validate, be a refresh token, name this application and
      name a user that still exists. */
  function RefreshUser(codec: Codec, token: string, applicationId: int, users: map<int, User>, now: int)
    : (r: Result<User>)
    ensures r.Ok? <==>
      && ValidateToken(codec, token, now).Ok?
      && IsRefreshToken(ValidateToken(codec, token, now).value)
      && GetApplicationId(ValidateToken(codec, token, now).value) == applicationId
      && GetUserId(ValidateToken(codec, token, now).value) in users
    ensures r.Ok? ==> r.value == users[GetUserId(ValidateToken(codec, token, now).value)]
    ensures ValidateToken(codec, token, now).Err? ==> r == Err(ValidateToken(codec, token, now).error)
    ensures var d := ValidateToken(codec, token, now);
      (d.Ok? && !IsRefreshToken(d.value))
      ==> r == Err(Exception(InvalidRefreshToken))
    ensures var d := ValidateToken(codec, token, now);
      (d.Ok? && IsRefreshToken(d.value) && GetApplicationId(d.value) != applicationId)
      ==> r == Err(Exception(InvalidApplication))
    ensures var d := ValidateToken(codec, token, now);
      (d.Ok? && IsRefreshToken(d.value) && GetApplicationId(d.value) == applicationId && GetUserId(d.value) !in users)
      ==> r == Err(Exception(UserNotFound))
  {
    var decoded := ValidateToken(codec, token, now);
    if decoded.Err? then Err(decoded.error)
    else if !IsRefreshToken(decoded.value) then Err(Exception(InvalidRefreshToken))
    else if GetApplicationId(decoded.value) != applicationId then Err(Exception(InvalidApplication))
    else if GetUserId(decoded.value) !in users then Err(Exception(UserNotFound))
    else Ok(users[GetUserId(decoded.value)])
  }

  /** An access token is never accepted for a refresh, even while it is live. */
  lemma AccessTokenCannotRefresh(config: JwtConfig, codec: Codec, user: ClaimUser, applicationId: int,
                                 users: map<int, User>, now: int, t: int)
    requires Faithful(codec)
    requires now <= t < now + config.expiration
    ensures RefreshUser(codec, GenerateTokens(config, codec, user, applicationId, now).accessToken, applicationId, users, t)
      == Err(Exception(InvalidRefreshToken))
  {
    AccessTokenValidates(config, codec, user, applicationId, now, t);
  }

  /** A live refresh token of a pair is accepted for its own application while
      its user exists, and refused for any other application. */
  lemma RefreshTokenRefreshes(config: JwtConfig, codec: Codec, u: User, applicationId: int, otherApplication: int,
                              users: map<int, User>, now: int, t: int)
    requires Faithful(codec)
    requires now <= t < now + config.refreshExpiration
    requires u.id in users && otherApplication != applicationId
    ensures var token := GenerateTokens(config, codec, ClaimUserOf(u), applicationId, now).refreshToken;
      && RefreshUser(codec, token, applicationId, users, t) == Ok(users[u.id])
      && RefreshUser(codec, token, otherApplication, users, t) == Err(Exception(InvalidApplication))
  {
    RefreshTokenValidates(config, codec, ClaimUserOf(u), applicationId, now, t);
  }

  class AuthService {
    const db: Database
    const audit: AuditLogService
    const config: JwtConfig
    const codec: Codec

    constructor (db: Database, config: JwtConfig, codec: Codec)
      requires db.Valid()
      ensures this.db == db && this.config == config && this.codec == codec && Valid()
    {
      this.db := db;
      this.config := config;
      this.codec := codec;
      this.audit := new AuditLogService(db);
    }

    predicate Valid()
      reads db
    {
      audit.db == db && db.Valid()
    }

    /** `authenticate`: the fetched row must exist and its hash must verify the
        password; failure logs `login_failed`, success issues a pair and logs
        `login_success`. */
    method Authenticate(username: string, password: string, applicationId: int, now: int) returns (r: Result<Login>)
      requires Valid()
      modifies db`auditLogs
      ensures Valid()
      ensures var row := LoginRow(db.users, db.nextUserId, db.applications, username, applicationId);
        (row.None? || !PasswordVerify(password, row.value.password)) ==>
          && r == Err(Exception(InvalidCredentials))
          && db.auditLogs == old(db.auditLogs) + [RowOf(|old(db.auditLogs)| + 1, LoginFailedEvent(applicationId, username), now)]
      ensures var row := LoginRow(db.users, db.nextUserId, db.applications, username, applicationId);
        (row.Some? && PasswordVerify(password, row.value.password)) ==>
          && r == Ok(Login(ClaimUserOf(row.value), GenerateTokens(config, codec, ClaimUserOf(row.value), applicationId, now)))
          && db.auditLogs == old(db.auditLogs) + [RowOf(|old(db.auditLogs)| + 1, LoginSuccessEvent(applicationId, row.value.id, username), now)]
    {
      var row := LoginRow(db.users, db.nextUserId, db.applications, username, applicationId);
      r := Conclude(row, username, password, applicationId, now);
    }

    /** The second half of `authenticate`, once the row is fetched. */
    method Conclude(row: Option<User>, username: string, password: string, applicationId: int, now: int)
      returns (r: Result<Login>)
      requires Valid()
      modifies db`auditLogs
      ensures Valid()
      ensures (row.None? || !PasswordVerify(password, row.value.password)) ==>
        && r == Err(Exception(InvalidCredentials))
        && db.auditLogs == old(db.auditLogs) + [RowOf(|old(db.auditLogs)| + 1, LoginFailedEvent(applicationId, username), now)]
      ensures (row.Some? && PasswordVerify(password, row.value.password)) ==>
        && r == Ok(Login(ClaimUserOf(row.value), GenerateTokens(config, codec, ClaimUserOf(row.value), applicationId, now)))
        && db.auditLogs == old(db.auditLogs) + [RowOf(|old(db.auditLogs)| + 1, LoginSuccessEvent(applicationId, row.value.id, username), now)]
    {
      if row.None? || !PasswordVerify(password, row.value.password) {
        r := Err(Exception(InvalidCredentials));
        audit.Log(LoginFailedEvent(applicationId, username), now);
      } else {
        var user := ClaimUserOf(row.value);
        r := Ok(Login(user, GenerateTokens(config, codec, user, applicationId, now)));
        audit.Log(LoginSuccessEvent(applicationId, user.id, username), now);
      }
    }

    /** `refreshToken`: after the checks of `RefreshUser`, a fresh pair for the
        user and a `token_refresh` row; any failure writes nothing. */
    method RefreshToken(token: string, applicationId: int, now: int) returns (r: Result<TokenPair>)
      requires Valid()
      modifies db`auditLogs
      ensures Valid()
      ensures var check := RefreshUser(codec, token, applicationId, db.users, now);
        && (check.Err? ==> r == Err(check.error) && unchanged(db))
        && (check.Ok? ==>
          && r == Ok(GenerateTokens(config, codec, ClaimUserOf(check.value), applicationId, now))
          && db.auditLogs == old(db.auditLogs) + [RowOf(|old(db.auditLogs)| + 1, Event(Some(applicationId),
               Some(check.value.id), TokenRefresh, map[UsernameKey := JStr(check.value.username)]), now)])
    {
      var decoded := ValidateToken(codec, token, now);
      if decoded.Err? {
        return Err(decoded.error);
      }
      if !IsRefreshToken(decoded.value) {
        return Err(Exception(InvalidRefreshToken));
      }
      if GetApplicationId(decoded.value) != applicationId {
        return Err(Exception(InvalidApplication));
      }
      var userId := GetUserId(decoded.value);
      if userId !in db.users {
        return Err(Exception(UserNotFound));
      }
      var user := ClaimUserOf(db.users[userId]);
      var tokens := GenerateTokens(config, codec, user, applicationId, now);
      audit.Log(Event(Some(applicationId), Some(userId), TokenRefresh, map[UsernameKey := JStr(user.username)]), now);
      return Ok(tokens);
    }
  }
}
