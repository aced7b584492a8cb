/** The security middleware: a fixed-window request counter per client
    address, kept in Redis under `rate_limit:{ip}`, and the security headers
    added to every admitted response. */
module RateLimiting {
  import opened Wrappers
  import opened Http
  import opened KeyValue
  import opened Strings

  const KeyPrefix := "rate_limit:"

  /** The counter key of a client address. */
  function RateLimitKey(ip: string): (k: string)
    ensures KeyPrefix <= k && k[|KeyPrefix|..] == ip
  {
    KeyPrefix + ip
  }

  /** Distinct addresses have distinct counters. */
  lemma RateLimitKeyInjective(ip1: string, ip2: string)
    requires RateLimitKey(ip1) == RateLimitKey(ip2)
    ensures ip1 == ip2
  {
    assert ip1 == RateLimitKey(ip1)[|KeyPrefix|..];
  }

  const ForwardedFor := "HTTP_X_FORWARDED_FOR"
  const ClientIpParam := "HTTP_CLIENT_IP"
  const RemoteAddr := "REMOTE_ADDR"
  const NoAddress := "0.0.0.0"

  /** `getClientIp`: the first of the three server parameters that is set. */
  function ClientIp(params: map<string, string>): (ip: string)
    ensures ForwardedFor in params ==> ip == params[ForwardedFor]
    ensures ForwardedFor !in params && ClientIpParam in params ==> ip == params[ClientIpParam]
    ensures ForwardedFor !in params && ClientIpParam !in params && RemoteAddr in params ==> ip == params[RemoteAddr]
    ensures ForwardedFor !in params && ClientIpParam !in params && RemoteAddr !in params ==> ip == NoAddress
  {
    if ForwardedFor in params then params[ForwardedFor]
    else if ClientIpParam in params then params[ClientIpParam]
    else if RemoteAddr in params then params[RemoteAddr]
    else NoAddress
  }

  /** The address is one the request supplied, or the fallback. */
  lemma ClientIpIsSupplied(params: map<string, string>)
    ensures ClientIp(params) in params.Values || ClientIp(params) == NoAddress
  {
    var ip := ClientIp(params);
    if ForwardedFor in params {
      assert params[ForwardedFor] in params.Values;
    } else if ClientIpParam in params {
      assert params[ClientIpParam] in params.Values;
    } else if RemoteAddr in params {
      assert params[RemoteAddr] in params.Values;
    }
  }

  /** The forwarded-for header, which the client writes, overrides the peer
      address: a client chooses which counter its requests are charged to. */
  lemma ForwardedForChoosesCounter(params: map<string, string>, claimed: string)
    ensures RateLimitKey(ClientIp(params[ForwardedFor := claimed])) == RateLimitKey(claimed)
  {
  }

  /** The outcome of one `checkRateLimit` call: whether the request is
      admitted, and the counters afterwards. */
  datatype Decision = Decision(admitted: bool, counters: map<string, Entry<int>>)

  /** `checkRateLimit` on the counters at time `now`. A missing, expired or
      zero counter starts a new window at 1; a counter at or over the limit
      refuses; any other counter is incremented in place, keeping its expiry. */
  function Step(counters: map<string, Entry<int>>, key: string, limit: int, window: int, now: int): Decision {
    var current := if Live(counters, key, now) then counters[key].value else 0;
    if current == 0 then Decision(true, counters[key := Entry(1, now + window)])
    else if current >= limit then Decision(false, counters)
    else Decision(true, counters[key := counters[key].(value := current + 1)])
  }

  /** Only the request's own counter changes. */
  lemma StepTouchesOnlyItsKey(counters: map<string, Entry<int>>, key: string, limit: int, window: int, now: int)
    ensures forall k :: k != key ==> (k in Step(counters, key, limit, window, now).counters <==> k in counters)
    ensures forall k :: k != key && k in counters ==> Step(counters, key, limit, window, now).counters[k] == counters[k]
  {
  }

  /** Every counter is at least 1 and at most the limit, or 1 when the limit is below 1. */
  ghost predicate Bounded(counters: map<string, Entry<int>>, limit: int) {
    forall k :: k in counters ==> 1 <= counters[k].value <= (if limit < 1 then 1 else limit)
  }

  lemma StepKeepsBound(counters: map<string, Entry<int>>, key: string, limit: int, window: int, now: int)
    requires Bounded(counters, limit)
    ensures Bounded(Step(counters, key, limit, window, now).counters, limit)
  {
  }

  /** A refused request changes nothing; an admitted one on a live counter adds
      exactly one and leaves the window's end where it was. */
  lemma StepOnLiveCounter(counters: map<string, Entry<int>>, key: string, limit: int, window: int, now: int)
    requires Bounded(counters, limit) && Live(counters, key, now)
    ensures var d := Step(counters, key, limit, window, now);
      && (d.admitted <==> counters[key].value < limit)
      && (!d.admitted ==> d.counters == counters)
      && (d.admitted ==> d.counters[key] == Entry(counters[key].value + 1, counters[key].expiresAt))
  {
  }

  /** Without a live counter the request is admitted and a window of `window`
      seconds opens with the count at 1. */
  lemma StepWithoutLiveCounter(counters: map<string, Entry<int>>, key: string, limit: int, window: int, now: int)
    requires !Live(counters, key, now)
    ensures var d := Step(counters, key, limit, window, now);
      d.admitted && d.counters[key] == Entry(1, now + window)
  {
  }

  /** The verdicts for a sequence of requests from one client. */
  function Run(counters: map<string, Entry<int>>, key: string, limit: int, window: int, times: seq<int>)
    : (admitted: seq<bool>)
    ensures |admitted| == |times|
    decreases |times|
  {
    if times == [] then []
    else
      var d := Step(counters, key, limit, window, times[0]);
      [d.admitted] + Run(d.counters, key, limit, window, times[1..])
  }

  /** Inside a live window whose count is `n`, the i-th further request is
      admitted exactly when `n + i` is below the limit. */
  lemma {:induction false} RunInWindow(counters: map<string, Entry<int>>, key: string, limit: int, window: int,
                                       times: seq<int>, n: int)
    requires key in counters && counters[key].value == n && 1 <= n
    requires forall i :: 0 <= i < |times| ==> times[i] < counters[key].expiresAt
    ensures forall i :: 0 <= i < |times| ==> Run(counters, key, limit, window, times)[i] == (n + i < limit)
    decreases |times|
  {
    if times != [] {
      var d := Step(counters, key, limit, window, times[0]);
      var rest := times[1..];
      var m := if n < limit then n + 1 else n;
      assert d.counters[key] == Entry(m, counters[key].expiresAt);
      RunInWindow(d.counters, key, limit, window, rest, m);
      var run := Run(counters, key, limit, window, times);
      assert run == [d.admitted] + Run(d.counters, key, limit, window, rest);
      forall i | 1 <= i < |times|
        ensures run[i] == (n + i < limit)
      {
        assert run[i] == Run(d.counters, key, limit, window, rest)[i - 1];
      }
    }
  }

  /** The fixed window: starting without a live counter, the first request is
      admitted, and of the requests that arrive before the window closes the
      i-th (counting from 0) is admitted exactly when i is below the limit. For a
      limit N of at least 1, the first N requests pass and the next is refused. */
  lemma FirstLimitAdmitted(counters: map<string, Entry<int>>, key: string, limit: int, window: int, times: seq<int>)
    requires |times| > 0 && !Live(counters, key, times[0])
    requires forall i :: 0 <= i < |times| ==> times[i] < times[0] + window
    ensures Run(counters, key, limit, window, times)[0]
    ensures forall i :: 1 <= i < |times| ==> Run(counters, key, limit, window, times)[i] == (i < limit)
  {
    var d := Step(counters, key, limit, window, times[0]);
    var run := Run(counters, key, limit, window, times);
    RunInWindow(d.counters, key, limit, window, times[1..], 1);
    forall i | 1 <= i < |times|
      ensures run[i] == (i < limit)
    {
      assert run[i] == Run(d.counters, key, limit, window, times[1..])[i - 1];
    }
  }

  /** Once the window has closed the next request opens a new one. */
  lemma ExpiredCounterResets(counters: map<string, Entry<int>>, key: string, limit: int, window: int, now: int)
    requires key in counters && counters[key].expiresAt <= now
    ensures Step(counters, key, limit, window, now) == Decision(true, counters[key := Entry(1, now + window)])
  {
  }

  /** `(int)$_ENV[name] ?? default` as PHP evaluates it: the cast binds tighter
      than `??`, turns a missing variable into 0, and 0 is not null, so the
      default is never used. */
  function ConfiguredAsWritten(env: Option<int>, default: int): (v: int)
    ensures env.None? ==> v == 0
    ensures env.Some? ==> v == env.value
  {
    if env.Some? then env.value else 0
  }

  /** The configuration the constructor evidently means: the variable when set,
      the default otherwise. */
  function Configured(env: Option<int>, default: int): (v: int)
    ensures env.None? ==> v == default
    ensures env.Some? ==> v == env.value
  {
    if env.Some? then env.value else default
  }

  /** With `RATE_LIMIT` and `RATE_LIMIT_WINDOW` unset, the limit and the window
      are both 0: each new counter is written already expired, so every request
      is admitted. */
  lemma {:induction false} UnsetConfigAdmitsAll(counters: map<string, Entry<int>>, key: string, times: seq<int>)
    requires forall i, j :: 0 <= i < j < |times| ==> times[i] <= times[j]
    requires |times| > 0 ==> !Live(counters, key, times[0])
    ensures forall i :: 0 <= i < |times| ==>
      Run(counters, key, ConfiguredAsWritten(None, 100), ConfiguredAsWritten(None, 3600), times)[i]
    decreases |times|
  {
    var limit, window := ConfiguredAsWritten(None, 100), ConfiguredAsWritten(None, 3600);
    assert limit == 0 && window == 0;
    if times != [] {
      var d := Step(counters, key, limit, window, times[0]);
      assert d.counters[key] == Entry(1, times[0]);
      var rest := times[1..];
      if rest != [] {
        assert rest[0] == times[1] >= times[0];
      }
      UnsetConfigAdmitsAll(d.counters, key, rest);
      var run := Run(counters, key, limit, window, times);
      assert run == [d.admitted] + Run(d.counters, key, limit, window, rest);
      forall i | 1 <= i < |times|
        ensures run[i]
      {
        assert run[i] == Run(d.counters, key, limit, window, rest)[i - 1];
      }
    }
  }

  /** With the defaults applied, the hundred-and-first request of an hour is refused. */
  lemma DefaultConfigRefusesOverflow(counters: map<string, Entry<int>>, key: string, times: seq<int>)
    requires |times| == 101 && !Live(counters, key, times[0])
    requires forall i :: 0 <= i < |times| ==> times[i] < times[0] + 3600
    ensures forall i :: 0 <= i < 100 ==> Run(counters, key, Configured(None, 100), Configured(None, 3600), times)[i]
    ensures !Run(counters, key, Configured(None, 100), Configured(None, 3600), times)[100]
  {
    FirstLimitAdmitted(counters, key, 100, 3600, times);
  }

  const RateLimitExceeded := "Rate limit exceeded"

  const ContentType := "Content-Type"
  const ApplicationJson := "application/json"

  /** The response carries the header with that value. */
  predicate HasHeader(r: Response, name: string, value: string) {
    name in r.headers && r.headers[name] == value
  }

  /** The 429 answer; the handler is not consulted. */
  function TooManyRequests(): (r: Response)
    ensures r.status == 429 && HasHeader(r, ContentType, ApplicationJson)
    ensures r.body == JsonObject([("error", JStr(RateLimitExceeded))])
  {
    Response(429, map[ContentType := ApplicationJson], JsonObject([("error", JStr(RateLimitExceeded))]))
  }

  const NoSniff := ("X-Content-Type-Options", "nosniff")
  const FrameDeny := ("X-Frame-Options", "DENY")
  const XssBlock := ("X-XSS-Protection", "1; mode=block")
  const Hsts := ("Strict-Transport-Security", "max-age=31536000; includeSubDomains")
  const SelfOnly := ("Content-Security-Policy", "default-src 'self'")

  const SecurityHeaderNames: set<string> := {NoSniff.0, FrameDeny.0, XssBlock.0, Hsts.0, SelfOnly.0}

  /** A header name that is one of the five in some spelling. */
  predicate NamesSecurityHeader(h: string) {
    SameName(h, NoSniff.0) || SameName(h, FrameDeny.0) || SameName(h, XssBlock.0)
    || SameName(h, Hsts.0) || SameName(h, SelfOnly.0)
  }

  /** A header set by a later `withHeader` of another name survives it. */
  lemma WithHeaderKeeps(r: Response, name: string, value: string, h: string)
    requires h in r.headers && !SameName(h, name)
    ensures h in WithHeader(r, name, value).headers && WithHeader(r, name, value).headers[h] == r.headers[h]
  {
  }

  /** A header after a `withHeader` of another name was there before, in another spelling. */
  lemma WithHeaderOrigin(r: Response, name: string, value: string, h: string)
    requires h in WithHeader(r, name, value).headers && h != name
    ensures h in r.headers && !SameName(h, name)
  {
  }

  /** The handler's response with the five security headers set: any spelling
      of them the handler used is replaced, every other header is kept. */
  function Secured(r: Response): (q: Response)
    ensures q.status == r.status && q.body == r.body
    ensures HasHeader(q, NoSniff.0, NoSniff.1) && HasHeader(q, FrameDeny.0, FrameDeny.1)
    ensures HasHeader(q, XssBlock.0, XssBlock.1) && HasHeader(q, Hsts.0, Hsts.1)
    ensures HasHeader(q, SelfOnly.0, SelfOnly.1)
    ensures forall h :: h in r.headers && !NamesSecurityHeader(h) ==> HasHeader(q, h, r.headers[h])
    ensures forall h :: h in q.headers && NamesSecurityHeader(h) ==> h in SecurityHeaderNames
  {
    var r1 := WithHeader(r, NoSniff.0, NoSniff.1);
    var r2 := WithHeader(r1, FrameDeny.0, FrameDeny.1);
    var r3 := WithHeader(r2, XssBlock.0, XssBlock.1);
    var r4 := WithHeader(r3, Hsts.0, Hsts.1);
    var q := WithHeader(r4, SelfOnly.0, SelfOnly.1);
    SecuredSets(r, r1, r2, r3, r4, q);
    SecuredKeepsOthers(r, r1, r2, r3, r4, q);
    SecuredOnlyFive(r, r1, r2, r3, r4, q);
    q
  }

  /** Names of different lengths are never spellings of one name. */
  lemma LengthsDiffer(a: string, b: string)
    requires |a| != |b|
    ensures !SameName(a, b) && !SameName(b, a)
  {
  }

  /** Each header set early survives the later ones. */
  lemma SecuredSets(r: Response, r1: Response, r2: Response, r3: Response, r4: Response, q: Response)
    requires r1 == WithHeader(r, NoSniff.0, NoSniff.1) && r2 == WithHeader(r1, FrameDeny.0, FrameDeny.1)
    requires r3 == WithHeader(r2, XssBlock.0, XssBlock.1) && r4 == WithHeader(r3, Hsts.0, Hsts.1)
    requires q == WithHeader(r4, SelfOnly.0, SelfOnly.1)
    ensures HasHeader(q, NoSniff.0, NoSniff.1) && HasHeader(q, FrameDeny.0, FrameDeny.1)
    ensures HasHeader(q, XssBlock.0, XssBlock.1) && HasHeader(q, Hsts.0, Hsts.1)
  {
    LengthsDiffer(NoSniff.0, FrameDeny.0);
    LengthsDiffer(NoSniff.0, XssBlock.0);
    LengthsDiffer(NoSniff.0, Hsts.0);
    LengthsDiffer(NoSniff.0, SelfOnly.0);
    LengthsDiffer(FrameDeny.0, XssBlock.0);
    LengthsDiffer(FrameDeny.0, Hsts.0);
    LengthsDiffer(FrameDeny.0, SelfOnly.0);
    LengthsDiffer(XssBlock.0, Hsts.0);
    LengthsDiffer(XssBlock.0, SelfOnly.0);
    LengthsDiffer(Hsts.0, SelfOnly.0);
    WithHeaderKeeps(r1, FrameDeny.0, FrameDeny.1, NoSniff.0);
    WithHeaderKeeps(r2, XssBlock.0, XssBlock.1, NoSniff.0);
    WithHeaderKeeps(r3, Hsts.0, Hsts.1, NoSniff.0);
    WithHeaderKeeps(r4, SelfOnly.0, SelfOnly.1, NoSniff.0);
    WithHeaderKeeps(r2, XssBlock.0, XssBlock.1, FrameDeny.0);
    WithHeaderKeeps(r3, Hsts.0, Hsts.1, FrameDeny.0);
    WithHeaderKeeps(r4, SelfOnly.0, SelfOnly.1, FrameDeny.0);
    WithHeaderKeeps(r3, Hsts.0, Hsts.1, XssBlock.0);
    WithHeaderKeeps(r4, SelfOnly.0, SelfOnly.1, XssBlock.0);
    WithHeaderKeeps(r4, SelfOnly.0, SelfOnly.1, Hsts.0);
  }

  /** A header that is none of the five in any spelling passes through unchanged. */
  lemma SecuredKeepsOthers(r: Response, r1: Response, r2: Response, r3: Response, r4: Response, q: Response)
    requires r1 == WithHeader(r, NoSniff.0, NoSniff.1) && r2 == WithHeader(r1, FrameDeny.0, FrameDeny.1)
    requires r3 == WithHeader(r2, XssBlock.0, XssBlock.1) && r4 == WithHeader(r3, Hsts.0, Hsts.1)
    requires q == WithHeader(r4, SelfOnly.0, SelfOnly.1)
    ensures forall h :: h in r.headers && !NamesSecurityHeader(h) ==> HasHeader(q, h, r.headers[h])
  {
    forall h | h in r.headers && !NamesSecurityHeader(h)
      ensures HasHeader(q, h, r.headers[h])
    {
      WithHeaderKeeps(r, NoSniff.0, NoSniff.1, h);
      WithHeaderKeeps(r1, FrameDeny.0, FrameDeny.1, h);
      WithHeaderKeeps(r2, XssBlock.0, XssBlock.1, h);
      WithHeaderKeeps(r3, Hsts.0, Hsts.1, h);
      WithHeaderKeeps(r4, SelfOnly.0, SelfOnly.1, h);
    }
  }

  /** No other spelling of the five names is left over from the handler. */
  lemma SecuredOnlyFive(r: Response, r1: Response, r2: Response, r3: Response, r4: Response, q: Response)
    requires r1 == WithHeader(r, NoSniff.0, NoSniff.1) && r2 == WithHeader(r1, FrameDeny.0, FrameDeny.1)
    requires r3 == WithHeader(r2, XssBlock.0, XssBlock.1) && r4 == WithHeader(r3, Hsts.0, Hsts.1)
    requires q == WithHeader(r4, SelfOnly.0, SelfOnly.1)
    ensures forall h :: h in q.headers && NamesSecurityHeader(h) ==> h in SecurityHeaderNames
  {
    forall h | h in q.headers && h !in SecurityHeaderNames
      ensures !NamesSecurityHeader(h)
    {
      assert h != NoSniff.0 && h != FrameDeny.0 && h != XssBlock.0 && h != Hsts.0 && h != SelfOnly.0;
      WithHeaderOrigin(r4, SelfOnly.0, SelfOnly.1, h);
      WithHeaderOrigin(r3, Hsts.0, Hsts.1, h);
      WithHeaderOrigin(r2, XssBlock.0, XssBlock.1, h);
      WithHeaderOrigin(r1, FrameDeny.0, FrameDeny.1, h);
      WithHeaderOrigin(r, NoSniff.0, NoSniff.1, h);
    }
  }

  /** The middleware with its Redis counters and its configuration. */
  class RateLimiter {
    var counters: map<string, Entry<int>>
    const limit: int
    const window: int

    /** The limit and the window come from `RATE_LIMIT` and `RATE_LIMIT_WINDOW`,
        defaulting to 100 requests per 3600 seconds. */
    constructor (limitEnv: Option<int>, windowEnv: Option<int>)
      ensures counters == map[] && Valid()
      ensures limit == Configured(limitEnv, 100) && window == Configured(windowEnv, 3600)
    {
      counters := map[];
      limit := Configured(limitEnv, 100);
      window := Configured(windowEnv, 3600);
    }

    ghost predicate Valid()
      reads this
    {
      Bounded(counters, limit)
    }

    /** `checkRateLimit`. */
    method CheckRateLimit(ip: string, now: int) returns (admitted: bool)
      requires Valid()
      modifies this
      ensures Valid()
      ensures Decision(admitted, counters) == Step(old(counters), RateLimitKey(ip), limit, window, now)
    {
      var key := RateLimitKey(ip);
      StepKeepsBound(counters, key, limit, window, now);
      var current := if key in counters && now < counters[key].expiresAt then counters[key].value else 0;
      if current == 0 {
        counters := counters[key := Entry(1, now + window)];
        return true;
      }
      if current >= limit {
        return false;
      }
      counters := counters[key := counters[key].(value := current + 1)];
      return true;
    }

    /** `process`: refuse with 429 over the limit, otherwise run the handler
        and add the security headers. */
    method Process(request: Request, handler: Request -> Response, now: int) returns (r: Response)
      requires Valid()
      modifies this
      ensures Valid()
      ensures var d := Step(old(counters), RateLimitKey(ClientIp(request.serverParams)), limit, window, now);
        && counters == d.counters
        && r == (if d.admitted then Secured(handler(request)) else TooManyRequests())
    {
      var ip := ClientIp(request.serverParams);
      var admitted := CheckRateLimit(ip, now);
      if !admitted {
        return TooManyRequests();
      }
      return Secured(handler(request));
    }
  }
}
