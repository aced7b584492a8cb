/** The authorization middleware: it takes the bearer token from the
    `Authorization` header, checks it is a live access token, asks the
    permission service whether the token's user may perform the request's
    action on its resource in the token's application, records the decision in
    the audit log and either passes the request on or answers 401. */
module Authorization {
  import opened Wrappers
  import opened Strings
  import opened Tokens
  import opened Http
  import opened KeyValue
  import opened Store
  import opened AuditLog
  import opened Permissions

  const NoToken := "No token provided"
  const RefreshNotAllowed := "Refresh token cannot be used for authorization"
  const AccessDenied := "Access denied"

  /** Audit action names and detail keys. */
  const AccessGranted := "access_granted"
  const AccessDeniedAction := "access_denied"
  const AuthError := "auth_error"
  const ResourceKey := "resource"
  const ActionKey := "action"
  const ReasonKey := "reason"
  const ErrorKey := "error"
  const InsufficientPermissions := "insufficient_permissions"

  const BearerWord := "bearer"

  /** PCRE's `\s` outside UTF mode: space, tab, line feed, vertical tab, form feed, carriage return. */
  predicate IsPcreSpace(c: char) {
    c == ' ' || '\t' <= c <= '\r'
  }

  /** The end of the run of `\s` characters that starts at `j`. */
  function SkipSpaces(h: string, j: nat): (k: nat)
    requires j <= |h|
    ensures j <= k <= |h|
    ensures forall m :: j <= m < k ==> IsPcreSpace(h[m])
    ensures k == |h| || !IsPcreSpace(h[k])
    decreases |h| - j
  {
    if j < |h| && IsPcreSpace(h[j]) then SkipSpaces(h, j + 1) else j
  }

  /** `Bearer\s` matches case-insensitively at position `i`. */
  predicate BearerAt(h: string, i: int) {
    0 <= i && i + 7 <= |h| && ToLower(h[i..i + 6]) == BearerWord && IsPcreSpace(h[i + 6])
  }

  /** The leftmost match at or after `i` of `/Bearer\s+(.*)$/i` in a header with
      no line feed: `\s+` takes the whole run of spaces, `(.*)` the rest. */
  function BearerFrom(h: string, i: nat): (r: Option<string>)
    requires i <= |h|
    ensures r.None? <==> forall k :: i <= k <= |h| ==> !BearerAt(h, k)
    ensures r.Some? ==> exists k :: (i <= k && BearerAt(h, k) && r.value == h[SkipSpaces(h, k + 6)..]
      && forall m :: i <= m < k ==> !BearerAt(h, m))
    ensures r.Some? ==> r.value == [] || !IsPcreSpace(r.value[0])
    decreases |h| - i
  {
    if i + 7 > |h| then None
    else if BearerAt(h, i) then Some(h[SkipSpaces(h, i + 6)..])
    else BearerFrom(h, i + 1)
  }

  /** The token `preg_match('/Bearer\s+(.*)$/i', $authHeader, $matches)` captures.
      An HTTP field value carries no line feed (section 5.5 of RFC 9110), which
      is the only character on which `.` and `$` behave differently. */
  function ExtractBearer(h: string): (r: Option<string>)
    requires '\n' !in h
    ensures r.None? <==> forall k :: 0 <= k <= |h| ==> !BearerAt(h, k)
    ensures r.Some? ==> r.value == [] || !IsPcreSpace(r.value[0])
  {
    BearerFrom(h, 0)
  }

  /** A run of spaces skipped from any of its positions ends where the run ends. */
  lemma {:induction false} SkipSpacesRun(h: string, j: nat, end: nat)
    requires j <= end <= |h|
    requires forall m :: j <= m < end ==> IsPcreSpace(h[m])
    requires end == |h| || !IsPcreSpace(h[end])
    ensures SkipSpaces(h, j) == end
    decreases end - j
  {
    if j < end {
      SkipSpacesRun(h, j + 1, end);
    }
  }

  /** A header `Bearer<spaces><token>`, the word in any case, yields exactly the token. */
  lemma BearerRoundTrip(word: string, spaces: string, token: string)
    requires ToLower(word) == BearerWord
    requires |spaces| >= 1 && forall m :: 0 <= m < |spaces| ==> IsPcreSpace(spaces[m]) && spaces[m] != '\n'
    requires '\n' !in token && (token == [] || !IsPcreSpace(token[0]))
    ensures '\n' !in word + spaces + token
    ensures ExtractBearer(word + spaces + token) == Some(token)
  {
    var h := word + spaces + token;
    assert |word| == 6;
    assert h[0..6] == word;
    assert h[6] == spaces[0];
    assert BearerAt(h, 0);
    SkipSpacesRun(h, 6, 6 + |spaces|);
    assert h[6 + |spaces|..] == token;
    assert forall m :: 0 <= m < |h| ==> h[m] != '\n' by {
      forall m | 0 <= m < |h| ensures h[m] != '\n' {
        if m < 6 {
          assert h[m] == word[m];
          assert ToLower(word)[m] == LowerChar(word[m]);
        } else if m < 6 + |spaces| {
          assert h[m] == spaces[m - 6];
        } else {
          assert h[m] == token[m - 6 - |spaces|];
        }
      }
    }
  }

  /** The JWS compact serialization (section 7.1 of RFC 7515): base64url
      characters and dots, so a signed token holds no space. */
  predicate IsCompact(s: string) {
    forall i :: 0 <= i < |s| ==> ('A' <= s[i] <= 'Z' || 'a' <= s[i] <= 'z' || '0' <= s[i] <= '9'
                                  || s[i] == '-' || s[i] == '_' || s[i] == '.')
  }

  ghost predicate CompactTokens(codec: Codec) {
    forall c: Claims :: IsCompact(codec.encode(c))
  }

  /** The part of `handle` before the permission check: a header to take the
      token from, a token that validates, and not a refresh token. */
  function Precheck(codec: Codec, authorization: Option<string>, now: int): (r: Result<Claims>)
    requires authorization.Some? ==> '\n' !in authorization.value
    ensures r.Ok? <==>
      && !IsEmpty(authorization)
      && ExtractBearer(authorization.value).Some?
      && ValidateToken(codec, ExtractBearer(authorization.value).value, now).Ok?
      && !IsRefreshToken(ValidateToken(codec, ExtractBearer(authorization.value).value, now).value)
    ensures r.Ok? ==> r.value == ValidateToken(codec, ExtractBearer(authorization.value).value, now).value
    ensures r.Err? ==> r.error.Exception?
    ensures IsEmpty(authorization) ==> r == Err(Exception(NoToken))
    ensures !IsEmpty(authorization) && ExtractBearer(authorization.value).None? ==> r == Err(Exception(NoToken))
    ensures !IsEmpty(authorization) && ExtractBearer(authorization.value).Some?
      && ValidateToken(codec, ExtractBearer(authorization.value).value, now).Err?
      ==> r == Err(ValidateToken(codec, ExtractBearer(authorization.value).value, now).error)
    ensures !IsEmpty(authorization) && ExtractBearer(authorization.value).Some?
      && ValidateToken(codec, ExtractBearer(authorization.value).value, now).Ok?
      && IsRefreshToken(ValidateToken(codec, ExtractBearer(authorization.value).value, now).value)
      ==> r == Err(Exception(RefreshNotAllowed))
  {
    if IsEmpty(authorization) then Err(Exception(NoToken))
    else match ExtractBearer(authorization.value)
      case None => Err(Exception(NoToken))
      case Some(token) =>
        var decoded := ValidateToken(codec, token, now);
        if decoded.Err? then Err(decoded.error)
        else if IsRefreshToken(decoded.value) then Err(Exception(RefreshNotAllowed))
        else Ok(decoded.value)
  }

  /** The header a client sends with the access token of a pair passes the
      precheck while the token is live, with the claims it was issued with;
      the refresh token of the same pair is refused. */
  lemma IssuedTokensPrecheck(config: JwtConfig, codec: Codec, user: ClaimUser, applicationId: int, now: int, t: int)
    requires Faithful(codec) && CompactTokens(codec)
    requires now <= t < now + config.expiration && now + config.expiration <= now + config.refreshExpiration
    ensures var pair := GenerateTokens(config, codec, user, applicationId, now);
      && '\n' !in "Bearer " + pair.accessToken && '\n' !in "Bearer " + pair.refreshToken
      && Precheck(codec, Some("Bearer " + pair.accessToken), t) == Ok(AccessClaims(config, user, applicationId, now))
      && Precheck(codec, Some("Bearer " + pair.refreshToken), t) == Err(Exception(RefreshNotAllowed))
  {
    var pair := GenerateTokens(config, codec, user, applicationId, now);
    CompactBearer(pair.accessToken, AccessClaims(config, user, applicationId, now), codec);
    CompactBearer(pair.refreshToken, RefreshClaims(config, user, applicationId, now), codec);
    AccessTokenValidates(config, codec, user, applicationId, now, t);
    RefreshTokenValidates(config, codec, user, applicationId, now, t);
  }

  lemma CompactBearer(token: string, c: Claims, codec: Codec)
    requires CompactTokens(codec) && token == codec.encode(c)
    ensures '\n' !in "Bearer " + token
    ensures ExtractBearer("Bearer " + token) == Some(token)
  {
    assert IsCompact(codec.encode(c));
    assert "Bearer " == "Bearer" + " ";
    assert ToLower("Bearer") == BearerWord;
    assert forall i :: 0 <= i < |token| ==> token[i] != '\n';
    BearerRoundTrip("Bearer", " ", token);
    assert "Bearer" + " " + token == "Bearer " + token;
  }

  /** The 401 answer: `{"error": "Unauthorized", "message": <message>}`. */
  function Unauthorized(message: string): (r: Response)
    ensures r.status == 401 && "Content-Type" in r.headers && r.headers["Content-Type"] == "application/json"
    ensures r.body == JsonObject([("error", JStr("Unauthorized")), ("message", JStr(message))])
  {
    Response(401, map["Content-Type" := "application/json"],
             JsonObject([("error", JStr("Unauthorized")), ("message", JStr(message))]))
  }

  /** The audit rows `handle` writes. */
  function GrantedEvent(applicationId: int, userId: int, request: Request): LogData {
    Event(Some(applicationId), Some(userId), AccessGranted,
          map[ResourceKey := JStr(request.resource), ActionKey := JStr(request.action)])
  }

  function DeniedEvent(applicationId: int, userId: int, request: Request): LogData {
    Event(Some(applicationId), Some(userId), AccessDeniedAction,
          map[ResourceKey := JStr(request.resource), ActionKey := JStr(request.action),
              ReasonKey := JStr(InsufficientPermissions)])
  }

  /** The row of the `catch` block. The ids are those assigned before the
      exception: none unless the token passed the precheck. */
  function ErrorEvent(applicationId: Option<int>, userId: Option<int>, message: string, request: Request): LogData {
    Event(applicationId, userId, AuthError,
          map[ErrorKey := JStr(message), ResourceKey := JStr(request.resource), ActionKey := JStr(request.action)])
  }

  /** The answer `hasPermission` gives: a live cached flag, or else the join. */
  function Answer(entries: map<string, Entry<CachedValue>>, db: Database, c: Claims, request: Request, now: int): bool
    requires CacheTyped(entries)
    reads db
  {
    var key := UserPermissionKey(c.user.id, request.resource, request.action, c.applicationId);
    if Live(entries, key, now) then entries[key].value.granted
    else Grants(db.permissions, db.rolePermissions, db.userRoles, c.user.id, request.resource, request.action,
                c.applicationId)
  }

  /** The cache after `hasPermission`: unchanged on a hit, the answer stored for an hour on a miss. */
  function CacheAfter(entries: map<string, Entry<CachedValue>>, db: Database, c: Claims, request: Request, now: int)
    : map<string, Entry<CachedValue>>
    requires CacheTyped(entries)
    reads db
  {
    var key := UserPermissionKey(c.user.id, request.resource, request.action, c.applicationId);
    if Live(entries, key, now) then entries
    else entries[key := Entry(Flag(Answer(entries, db, c, request, now)), now + CacheExpiry)]
  }

  /** Without a live cached entry the answer is exactly the stored grant, and once
      cached it is returned as is until the entry expires, whatever happens to the
      roles and permissions meanwhile. */
  lemma AnswerIsCachedForAnHour(entries: map<string, Entry<CachedValue>>, db: Database, c: Claims, request: Request,
                                now: int, later: int, db2: Database)
    requires CacheTyped(entries)
    requires !Live(entries, UserPermissionKey(c.user.id, request.resource, request.action, c.applicationId), now)
    requires now <= later < now + CacheExpiry
    ensures CacheTyped(CacheAfter(entries, db, c, request, now))
    ensures Answer(entries, db, c, request, now)
      == Grants(db.permissions, db.rolePermissions, db.userRoles, c.user.id, request.resource, request.action,
                c.applicationId)
    ensures Answer(CacheAfter(entries, db, c, request, now), db2, c, request, later) == Answer(entries, db, c, request, now)
  {
    var key := UserPermissionKey(c.user.id, request.resource, request.action, c.applicationId);
    FamiliesDisjoint(key);
  }

  class AuthMiddleware {
    const permissions: PermissionService
    const codec: Codec

    constructor (permissions: PermissionService, codec: Codec)
      ensures this.permissions == permissions && this.codec == codec
    {
      this.permissions := permissions;
      this.codec := codec;
    }

    predicate Valid()
      reads permissions.db, permissions.cache
    {
      permissions.Valid()
    }

    /** `handle`: a failed precheck logs `auth_error` without ids and answers 401;
        a granted request logs `access_granted` and goes to `next` with the
        token's user and application attached; a denied one logs `access_denied`,
        then `auth_error` with the ids, and answers 401. An exception `next`
        throws is caught the same way: `auth_error` with the ids, and 401. */
    method Handle(request: Request, next: Request -> Outcome, now: int) returns (r: Response)
      requires Valid()
      requires request.authorization.Some? ==> '\n' !in request.authorization.value
      modifies permissions.db`auditLogs, permissions.cache
      ensures Valid()
      ensures var pre := Precheck(codec, request.authorization, now);
        pre.Err? ==>
          && r == Unauthorized(pre.error.message)
          && permissions.cache.entries == old(permissions.cache.entries)
          && permissions.db.auditLogs == old(permissions.db.auditLogs)
               + [RowOf(|old(permissions.db.auditLogs)| + 1, ErrorEvent(None, None, pre.error.message, request), now)]
      ensures var pre := Precheck(codec, request.authorization, now);
        pre.Ok? ==>
          && permissions.cache.entries == CacheAfter(old(permissions.cache.entries), permissions.db, pre.value, request, now)
          && Decided(old(permissions.db.auditLogs), Answer(old(permissions.cache.entries), permissions.db, pre.value, request, now),
                     pre.value, request, next, now, r)
    {
      var pre := Precheck(codec, request.authorization, now);
      if pre.Err? {
        permissions.audit.Log(ErrorEvent(None, None, pre.error.message, request), now);
        return Unauthorized(pre.error.message);
      }
      var c := pre.value;
      ghost var entries := permissions.cache.entries;
      var granted := permissions.HasPermission(c.user.id, request.resource, request.action, c.applicationId, now);
      assert granted == Answer(entries, permissions.db, c, request, now);
      r := Decide(granted, c, request, next, now);
    }

    /** What `handle` leaves in the log and returns once the permission check answered. */
    ghost predicate Decided(logs: seq<AuditRow>, granted: bool, c: Claims, request: Request, next: Request -> Outcome,
                            now: int, r: Response)
      reads permissions.db
    {
      var app, user := c.applicationId, c.user.id;
      if granted then
        match next(request.(user := Some(c.user), applicationId := Some(app)))
        case Returned(response) =>
          && r == response
          && permissions.db.auditLogs == logs + [RowOf(|logs| + 1, GrantedEvent(app, user, request), now)]
        case Threw(message) =>
          && r == Unauthorized(message)
          && permissions.db.auditLogs == logs + [RowOf(|logs| + 1, GrantedEvent(app, user, request), now),
                                                 RowOf(|logs| + 2, ErrorEvent(Some(app), Some(user), message, request), now)]
      else
        && r == Unauthorized(AccessDenied)
        && permissions.db.auditLogs == logs + [RowOf(|logs| + 1, DeniedEvent(app, user, request), now),
                                               RowOf(|logs| + 2, ErrorEvent(Some(app), Some(user), AccessDenied, request), now)]
    }

    method Decide(granted: bool, c: Claims, request: Request, next: Request -> Outcome, now: int) returns (r: Response)
      requires Valid()
      modifies permissions.db`auditLogs
      ensures Valid()
      ensures Decided(old(permissions.db.auditLogs), granted, c, request, next, now, r)
    {
      var app, user := c.applicationId, c.user.id;
      if granted {
        permissions.audit.Log(GrantedEvent(app, user, request), now);
        var outcome := next(request.(user := Some(c.user), applicationId := Some(app)));
        if outcome.Threw? {
          permissions.audit.Log(ErrorEvent(Some(app), Some(user), outcome.message, request), now);
          r := Unauthorized(outcome.message);
        } else {
          r := outcome.response;
        }
      } else {
        permissions.audit.Log(DeniedEvent(app, user, request), now);
        permissions.audit.Log(ErrorEvent(Some(app), Some(user), AccessDenied, request), now);
        r := Unauthorized(AccessDenied);
      }
    }
  }
}
