/**
 * The validated configuration (config/env.ts): which variables are required, their defaults, the
 * OAuth redirect URI built from them and the default time-to-live of stored keys.
 */
module Env {
  import opened Wrappers
  import opened Js
  import Decimal
  import WhatwgUrl

  /** `process.env`: every variable that is set holds a string. */
  type ProcessEnv = map<string, string>

  datatype Config = Config(
    nodeEnv: string,
    appUrl: string,
    clientId: string,
    clientSecret: string,
    redirectPath: string,
    scope: string,
    upstashUrl: string,
    upstashToken: string,
    ttlSeconds: Option<string>)

  const DefaultRedirectPath: string := "/api/oauth/callback"
  const DefaultScope: string := "read,activity:read_all"
  /** Thirty days, in seconds. */
  const DefaultTtl: nat := 30 * 24 * 60 * 60

  /** The error a configuration that fails validation raises. */
  const InvalidConfiguration: JsError := Error("Invalid environment configuration.")

  function Var(env: ProcessEnv, name: string): Option<string> {
    if name in env then Some(env[name]) else None
  }

  /** A string `new URL(...)` accepts. */
  predicate IsUrl(s: string) {
    WhatwgUrl.Parse(s).Some?
  }

  predicate Filled(v: Option<string>) {
    v.Some? && v.value != ""
  }

  /** What a validated configuration guarantees to the rest of the code. */
  predicate Valid(c: Config) {
    && c.nodeEnv in {"development", "test", "production"}
    && IsUrl(c.appUrl) && IsUrl(c.upstashUrl)
    && c.clientId != "" && c.clientSecret != "" && c.upstashToken != ""
  }

  /** What the schema demands of the variables themselves, before any default is applied. */
  predicate SchemaAccepts(env: ProcessEnv) {
    && ("NODE_ENV" in env ==> env["NODE_ENV"] in {"development", "test", "production"})
    && "APP_URL" in env && IsUrl(env["APP_URL"])
    && "UPSTASH_REDIS_REST_URL" in env && IsUrl(env["UPSTASH_REDIS_REST_URL"])
    && Filled(Var(env, "STRAVA_CLIENT_ID")) && Filled(Var(env, "STRAVA_CLIENT_SECRET"))
    && Filled(Var(env, "UPSTASH_REDIS_REST_TOKEN"))
  }

  /**
   * The schema check: NODE_ENV defaults to "development" and must name one of three environments,
   * both URLs must parse, the client id, client secret and store token must be non-empty; the
   * redirect path and scope take their defaults only when unset; the TTL is optional.
   */
  function Validate(env: ProcessEnv): (r: Option<Config>)
    ensures r.Some? <==> SchemaAccepts(env)
    ensures r.Some? ==> Valid(r.value)
    ensures r.Some? ==>
      && r.value.appUrl == env["APP_URL"] && r.value.upstashUrl == env["UPSTASH_REDIS_REST_URL"]
      && r.value.clientId == env["STRAVA_CLIENT_ID"] && r.value.clientSecret == env["STRAVA_CLIENT_SECRET"]
      && r.value.upstashToken == env["UPSTASH_REDIS_REST_TOKEN"]
      && r.value.ttlSeconds == Var(env, "REDIS_TTL_SECONDS")
  {
    var c := Config(
      Var(env, "NODE_ENV").GetOr("development"),
      Var(env, "APP_URL").GetOr(""),
      Var(env, "STRAVA_CLIENT_ID").GetOr(""),
      Var(env, "STRAVA_CLIENT_SECRET").GetOr(""),
      Var(env, "STRAVA_REDIRECT_PATH").GetOr(DefaultRedirectPath),
      Var(env, "STRAVA_SCOPE").GetOr(DefaultScope),
      Var(env, "UPSTASH_REDIS_REST_URL").GetOr(""),
      Var(env, "UPSTASH_REDIS_REST_TOKEN").GetOr(""),
      Var(env, "REDIS_TTL_SECONDS"));
    if Valid(c) && "APP_URL" in env && "UPSTASH_REDIS_REST_URL" in env then Some(c) else None
  }

  /** Unset redirect path and scope take their defaults; a set one, even empty, is kept. */
  lemma ValidateDefaults(env: ProcessEnv)
    requires Validate(env).Some?
    ensures Validate(env).value.redirectPath == if "STRAVA_REDIRECT_PATH" in env then env["STRAVA_REDIRECT_PATH"] else "/api/oauth/callback"
    ensures Validate(env).value.scope == if "STRAVA_SCOPE" in env then env["STRAVA_SCOPE"] else "read,activity:read_all"
    ensures Validate(env).value.nodeEnv == if "NODE_ENV" in env then env["NODE_ENV"] else "development"
  {
  }

  /** A missing required variable fails validation. */
  lemma ValidateRequires(env: ProcessEnv, name: string)
    requires name in {"APP_URL", "STRAVA_CLIENT_ID", "STRAVA_CLIENT_SECRET", "UPSTASH_REDIS_REST_URL", "UPSTASH_REDIS_REST_TOKEN"}
    requires name !in env
    ensures Validate(env) == None
  {
  }

  // ---------------------------------------------------------------- the redirect URI

  function Slashes(n: nat): (s: string)
    ensures |s| == n && forall i | 0 <= i < n :: s[i] == '/'
  {
    if n == 0 then "" else Slashes(n - 1) + "/"
  }

  /** `s.replace(/\/+$/, "")`: every trailing '/' removed. */
  function TrimTrailingSlashes(s: string): (r: string)
    ensures |r| <= |s| && r == s[..|r|]
    ensures forall i | |r| <= i < |s| :: s[i] == '/'
    ensures r == [] || r[|r| - 1] != '/'
  {
    if s != [] && s[|s| - 1] == '/' then TrimTrailingSlashes(s[..|s| - 1]) else s
  }

  /** A base that does not end in '/' comes back out of any number of trailing slashes. */
  lemma {:induction false} TrimSlashesOf(base: string, n: nat)
    requires base == [] || base[|base| - 1] != '/'
    ensures TrimTrailingSlashes(base + Slashes(n)) == base
  {
    if n > 0 {
      var s := base + Slashes(n);
      assert s[..|s| - 1] == base + Slashes(n - 1);
      TrimSlashesOf(base, n - 1);
    } else {
      assert base + Slashes(0) == base;
    }
  }

  /** The path with a leading '/', added when it has none. */
  function LeadingSlash(path: string): (p: string)
    ensures p != [] && p[0] == '/'
  {
    if path != [] && path[0] == '/' then path else "/" + path
  }

  /** `getRedirectUri()`: APP_URL without its trailing slashes, then the redirect path. */
  function RedirectUri(c: Config): string {
    TrimTrailingSlashes(c.appUrl) + LeadingSlash(c.redirectPath)
  }

  /**
   * An APP_URL made of a base and any number of trailing slashes gives the base, joined to the
   * path by exactly one '/'.
   */
  lemma RedirectUriJoin(c: Config, base: string, n: nat)
    requires c.appUrl == base + Slashes(n) && (base == [] || base[|base| - 1] != '/')
    requires c.redirectPath == [] || c.redirectPath[0] != '/'
    ensures RedirectUri(c) == base + "/" + c.redirectPath
  {
    TrimSlashesOf(base, n);
  }

  /** With the defaults, an APP_URL of "https://h/" gives "https://h/api/oauth/callback". */
  lemma RedirectUriDefault(c: Config, base: string, n: nat)
    requires c.appUrl == base + Slashes(n) && (base == [] || base[|base| - 1] != '/')
    requires c.redirectPath == DefaultRedirectPath
    ensures RedirectUri(c) == base + "/api/oauth/callback"
  {
    TrimSlashesOf(base, n);
  }

  // ---------------------------------------------------------------- the default TTL

  /** `getDefaultTtlSeconds()`: REDIS_TTL_SECONDS when it is a non-empty run of digits, 30 days otherwise. */
  function DefaultTtlSeconds(c: Config): nat {
    match c.ttlSeconds
    case Some(s) => if s != "" && Decimal.AllDigits(s) then Decimal.DigitsValue(s) else DefaultTtl
    case None => DefaultTtl
  }

  /** A TTL written as decimal text is read back as that number of seconds. */
  lemma DefaultTtlOfDecimal(c: Config, n: nat)
    requires c.ttlSeconds == Some(Decimal.NatToString(n))
    ensures DefaultTtlSeconds(c) == n
  {
    Decimal.NatToStringValue(n);
  }

  /** Unset, empty or non-numeric text gives thirty days. */
  lemma DefaultTtlFallback(c: Config)
    requires c.ttlSeconds.None? || c.ttlSeconds.value == "" || !Decimal.AllDigits(c.ttlSeconds.value)
    ensures DefaultTtlSeconds(c) == 2592000
  {
  }

  // ---------------------------------------------------------------- memoisation

  /** The module variable `_env`: the configuration validated by the first successful `getEnv()`. */
  class EnvCache {
    var cached: Option<Config>

    constructor ()
      ensures cached == None
    {
      cached := None;
    }

    /**
     * `getEnv()`: the cached configuration when there is one; otherwise validate, cache a success
     * and throw on a failure, caching nothing.
     */
    method GetEnv(env: ProcessEnv) returns (r: Outcome<Config>)
      modifies this
      ensures old(cached).Some? ==> r == Ok(old(cached).value) && cached == old(cached)
      ensures old(cached).None? && Validate(env).Some? ==> r == Ok(Validate(env).value) && cached == Validate(env)
      ensures old(cached).None? && Validate(env).None? ==> r == Throw(InvalidConfiguration) && cached == None
    {
      if cached.Some? {
        return Ok(cached.value);
      }
      var parsed := Validate(env);
      if parsed.None? {
        return Throw(InvalidConfiguration);
      }
      cached := parsed;
      r := Ok(parsed.value);
    }
  }

  /** Two calls in a row give the same configuration: the second is served from the cache. */
  method GetEnvTwice(cache: EnvCache, env: ProcessEnv, env2: ProcessEnv) returns (first: Outcome<Config>, second: Outcome<Config>)
    modifies cache
    ensures first.Ok? ==> second == first
    ensures first.Throw? ==> old(cache.cached) == None && cache.cached == Validate(env2)
  {
    first := cache.GetEnv(env);
    second := cache.GetEnv(env2);
  }
}
