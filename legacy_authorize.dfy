/**
 * api/oauth/authorize.js: the builder-facing authorize endpoint. It accepts a return URI only on a
 * trusted host with a path ending in `/oauth/callback`, packs `{tool_redirect_uri, tool_state}`
 * into a base64url JSON state, and redirects to the provider with its own callback URI.
 */
module LegacyAuthorize {
  import opened Wrappers
  import opened JsonValue
  import opened Js
  import opened LegacyEnv
  import FormUrlEncoded
  import WhatwgUrl
  import StravaClient
  import JsonText
  import Utf8
  import Base64Url

  /** The hosts allowed to receive the builder's callback. */
  const TrustedHosts: set<string> := {"chat.openai.com", "chatgpt.com", "platform.openai.com"}

  const DefaultScope: string := "read,activity:read_all"

  const CallbackSuffix: string := "/oauth/callback"

  predicate EndsWith(s: string, suffix: string) {
    |suffix| <= |s| && s[|s| - |suffix|..] == suffix
  }

  /** `isAllowedToolRedirect(u)`: the text parses as a URL on a trusted host whose path ends in `/oauth/callback`. */
  predicate IsAllowedToolRedirect(u: Json) {
    var url := WhatwgUrl.Parse(JsString(u));
    url.Some? && url.value.host in TrustedHosts && EndsWith(url.value.path, CallbackSuffix)
  }

  /** Text that is not a URL is never allowed. */
  lemma UnparsableRedirect(u: Json)
    requires WhatwgUrl.Parse(JsString(u)).None?
    ensures !IsAllowedToolRedirect(u)
  {
  }

  /** `b64url(obj)`: the UTF-8 bytes of the JSON text, in base64url. */
  function B64url(obj: Json): (s: string)
    ensures forall i | 0 <= i < |s| :: Base64Url.IsUrlSafe(s[i])
  {
    Base64Url.Encode(Utf8.Encode(JsonText.Serialize(obj)))
  }

  // ---------------------------------------------------------------- scope

  /** `s.replace(/\s+/g, ',')`: every run of white space becomes one comma. */
  function NormalizeScope(s: string): string
    decreases |s|
  {
    if s == [] then []
    else if IsJsSpace(s[0]) then "," + NormalizeScope(TrimStart(s[1..]))
    else [s[0]] + NormalizeScope(s[1..])
  }

  predicate SpaceFree(s: string) {
    forall i | 0 <= i < |s| :: !IsJsSpace(s[i])
  }

  /** The normalised scope holds no white space. */
  lemma {:induction false} NormalizeScopeSpaceFree(s: string)
    ensures SpaceFree(NormalizeScope(s))
    decreases |s|
  {
    if s != [] {
      if IsJsSpace(s[0]) {
        NormalizeScopeSpaceFree(TrimStart(s[1..]));
      } else {
        NormalizeScopeSpaceFree(s[1..]);
      }
    }
  }

  /** Text without white space is left as it is. */
  lemma {:induction false} NormalizeScopeFixed(s: string)
    requires SpaceFree(s)
    ensures NormalizeScope(s) == s
    decreases |s|
  {
    if s != [] {
      assert !IsJsSpace(s[0]);
      NormalizeScopeFixed(s[1..]);
    }
  }

  /** Normalising twice is normalising once. */
  lemma NormalizeScopeIdempotent(s: string)
    ensures NormalizeScope(NormalizeScope(s)) == NormalizeScope(s)
  {
    NormalizeScopeSpaceFree(s);
    NormalizeScopeFixed(NormalizeScope(s));
  }

  /** A run of white space between a space-free head and a non-space tail becomes exactly one comma. */
  lemma {:induction false} NormalizeScopeRun(head: string, run: string, tail: string)
    requires SpaceFree(head) && run != [] && forall i | 0 <= i < |run| :: IsJsSpace(run[i])
    requires tail == [] || !IsJsSpace(tail[0])
    ensures NormalizeScope(head + run + tail) == head + "," + NormalizeScope(tail)
    decreases |head|
  {
    if head == [] {
      assert head + run + tail == run + tail;
      RunFirst(run, tail);
    } else {
      var s, n := head + run + tail, NormalizeScope(tail);
      assert s[0] == head[0] && !IsJsSpace(s[0]);
      assert s[1..] == head[1..] + run + tail;
      NormalizeScopeRun(head[1..], run, tail);
      assert NormalizeScope(s) == [head[0]] + (head[1..] + "," + n);
      assert [head[0]] + (head[1..] + "," + n) == head + "," + n;
    }
  }

  lemma RunFirst(run: string, tail: string)
    requires run != [] && forall i | 0 <= i < |run| :: IsJsSpace(run[i])
    requires tail == [] || !IsJsSpace(tail[0])
    ensures NormalizeScope(run + tail) == "," + NormalizeScope(tail)
  {
    var s := run + tail;
    assert IsJsSpace(s[0]);
    assert s[1..] == run[1..] + tail;
    SkipRun(run[1..], tail);
  }

  lemma {:induction false} SkipRun(run: string, tail: string)
    requires forall i | 0 <= i < |run| :: IsJsSpace(run[i])
    requires tail == [] || !IsJsSpace(tail[0])
    ensures TrimStart(run + tail) == tail
    decreases |run|
  {
    if run != [] {
      assert (run + tail)[1..] == run[1..] + tail;
      SkipRun(run[1..], tail);
    }
  }

  /** `(input.scope || 'read,activity:read_all').replace(...)`: a non-string scope has no `replace`. */
  function Scope(v: Option<Json>): Outcome<string> {
    var s := Or(v, Some(Str(DefaultScope))).value;
    if s.Str? then Ok(NormalizeScope(s.s)) else Throw(TypeError("replace is not a function"))
  }

  /** Without a scope the default `read,activity:read_all` is used, unchanged by the normalisation. */
  lemma ScopeDefault(v: Option<Json>)
    requires !Truthy(v)
    ensures Scope(v) == Ok(DefaultScope)
  {
    PrintableSpaceFree(DefaultScope);
    NormalizeScopeFixed(DefaultScope);
  }

  /** Visible ASCII text holds no white space. */
  lemma PrintableSpaceFree(s: string)
    requires forall i | 0 <= i < |s| :: '!' <= s[i] <= '~'
    ensures SpaceFree(s)
  {
  }

  // ---------------------------------------------------------------- the handler

  /** The input: the query for GET; for POST the body, a string body being JSON text ('' reads as {}). */
  function Input(verb: string, query: Option<Json>, body: Option<Json>): Outcome<Json> {
    if verb == "GET" then Ok(Or(query, Some(Obj([]))).value)
    else if body.Some? && body.value.Str? then JsonParse(if body.value.s == "" then "{}" else body.value.s)
    else Ok(Or(body, Some(Obj([]))).value)
  }

  /** `{ tool_redirect_uri, tool_state }` (an undefined state is left out). */
  function StateRecord(input: Json): Json {
    Record([("tool_redirect_uri", Get(input, "redirect_uri")), ("tool_state", Get(input, "state"))])
  }

  /** The provider parameters, in this order; redirect_uri is the bridge's own callback. */
  function OutgoingParams(base: string, clientId: string, scope: string, outState: string): FormUrlEncoded.Pairs {
    [("client_id", clientId), ("response_type", "code"), ("redirect_uri", CallbackUri(base)),
     ("scope", scope), ("approval_prompt", "auto"), ("state", outState)]
  }

  function AuthorizeUrl(ps: FormUrlEncoded.Pairs): string {
    StravaClient.AuthorizeEndpoint + "?" + FormUrlEncoded.Serialize(ps)
  }

  /** `res.status(500).json({ error: 'server_error', details })`. */
  function ServerError(details: string): Response {
    JsonResponse(500, Record([("error", Some(Str("server_error"))), ("details", Some(Str(details)))]))
  }

  const MissingRedirect: Response :=
    JsonResponse(400, ErrorObject("missing_redirect_uri",
      "Expected a builder-provided redirect_uri to return to the active ChatGPT conversation."))

  /** The handler after the method and configuration checks. */
  function Authorize(base: string, clientId: string, input: Json): Response {
    if input.Null? then ServerError("Cannot read properties of null (reading 'scope')")
    else
      match Scope(Get(input, "scope"))
      case Throw(e) => ServerError(e.message)
      case Ok(scope) =>
        var uri := Get(input, "redirect_uri");
        if !Truthy(uri) || !IsAllowedToolRedirect(uri.value) then MissingRedirect
        else Redirect(AuthorizeUrl(OutgoingParams(base, clientId, scope, B64url(StateRecord(input)))))
  }

  /** The handler: 405, the configuration checks, then the input. */
  function Handler(env: LegacyEnv.Env, verb: string, query: Option<Json>, body: Option<Json>): Response {
    if verb != "GET" && verb != "POST" then Response(405, NoBody, None)
    else if !Present(env.base) then ServerError("Missing PUBLIC_BASE_URL")
    else if !Present(env.clientId) then ServerError("Missing STRAVA_CLIENT_ID")
    else
      match Input(verb, query, body)
      case Throw(e) => ServerError(e.message)
      case Ok(input) => Authorize(env.base.value, env.clientId.value, input)
  }

  /** Only GET and POST are served. */
  lemma HandlerMethods(env: LegacyEnv.Env, verb: string, query: Option<Json>, body: Option<Json>)
    ensures Handler(env, verb, query, body).status == 405 <==> verb != "GET" && verb != "POST"
  {
  }

  /** A missing or untrusted return URI is refused with 400 and no redirect. */
  lemma UntrustedRedirectRefused(base: string, clientId: string, input: Json)
    requires !input.Null? && Scope(Get(input, "scope")).Ok?
    requires !Truthy(Get(input, "redirect_uri")) || !IsAllowedToolRedirect(Get(input, "redirect_uri").value)
    ensures Authorize(base, clientId, input) == MissingRedirect
    ensures MissingRedirect.status == 400 && MissingRedirect.location.None?
  {
  }

  /**
   * A '\' after the host ends the host for https, so an untrusted host followed by '\', an '@' and a
   * trusted host name is still the untrusted host, and the return URI is refused.
   */
  lemma BackslashHostRefused(host: string, rest: string)
    requires WhatwgUrl.ValidHost("https", host) && host !in TrustedHosts && WhatwgUrl.AllVisible(rest)
    ensures !IsAllowedToolRedirect(Str("https://" + host + "\\" + rest))
  {
    var s := "https://" + host + "\\" + rest;
    assert "https://" == "https" + "://";
    assert JsString(Str(s)) == s;
    StravaClient.HttpsScheme();
    WhatwgUrl.BackslashEndsHost("https", host, rest);
    var u := WhatwgUrl.Parse(s);
    assert u.Some? ==> u.value.host == host;
  }

  // The literal facts behind the example below, each proved on its own.
  lemma EvilHost()
    ensures WhatwgUrl.ValidHost("https", "evil.com")
  {
    assert WhatwgUrl.PlainHostChars("evil.com");
    WhatwgUrl.PlainHost("evil.com");
    WhatwgUrl.PlainHostName("evil.com");
  }

  lemma EvilRest()
    ensures WhatwgUrl.AllVisible("@chat.openai.com/oauth/callback")
  {
  }

  lemma EvilText()
    ensures "evil.com" !in TrustedHosts
    ensures "https://" + "evil.com" + "\\" + "@chat.openai.com/oauth/callback" == "https://evil.com\\@chat.openai.com/oauth/callback"
  {
  }

  /** `https://evil.com\@chat.openai.com/oauth/callback` is on the host evil.com and is refused. */
  lemma EvilBackslashRefused()
    ensures !IsAllowedToolRedirect(Str("https://evil.com\\@chat.openai.com/oauth/callback"))
  {
    EvilHost();
    EvilRest();
    EvilText();
    BackslashHostRefused("evil.com", "@chat.openai.com/oauth/callback");
  }

  /** Any parameter list after the authorize endpoint parses to that endpoint and reads back as the list. */
  lemma AuthorizeUrlReadsBack(ps: FormUrlEncoded.Pairs)
    ensures var u := WhatwgUrl.Parse(AuthorizeUrl(ps));
      && u.Some? && u.value.host == "www.strava.com" && u.value.path == "/oauth/authorize"
      && WhatwgUrl.SearchParams(u.value) == ps
  {
    var q := FormUrlEncoded.Serialize(ps);
    StravaClient.SerializedQuery(ps);
    StravaClient.AuthorizeTargetParses(q);
    FormUrlEncoded.ParsePiecesSerialize(ps);
  }

  lemma OutgoingParamsGet(base: string, clientId: string, scope: string, outState: string)
    ensures FormUrlEncoded.Get(OutgoingParams(base, clientId, scope, outState), "redirect_uri") == Some(CallbackUri(base))
    ensures FormUrlEncoded.Get(OutgoingParams(base, clientId, scope, outState), "scope") == Some(scope)
    ensures FormUrlEncoded.Get(OutgoingParams(base, clientId, scope, outState), "state") == Some(outState)
  {
    var ps := OutgoingParams(base, clientId, scope, outState);
    FormUrlEncoded.GetFirst(ps, "redirect_uri", 2);
    FormUrlEncoded.GetFirst(ps, "scope", 3);
    FormUrlEncoded.GetFirst(ps, "state", 5);
  }

  /**
   * An allowed return URI gives a 302 to the provider's authorize URL whose redirect_uri is the
   * bridge's callback (never the tool's URI), whose scope is the normalised scope and whose state
   * is the packed `{tool_redirect_uri, tool_state}`.
   */
  lemma AllowedRedirectAuthorizes(base: string, clientId: string, input: Json)
    requires !input.Null? && Scope(Get(input, "scope")).Ok?
    requires Truthy(Get(input, "redirect_uri")) && IsAllowedToolRedirect(Get(input, "redirect_uri").value)
    ensures var r := Authorize(base, clientId, input);
      && r.status == 302 && r.location.Some?
      && var u := WhatwgUrl.Parse(r.location.value);
      && u.Some? && u.value.host == "www.strava.com" && u.value.path == "/oauth/authorize"
      && FormUrlEncoded.Get(WhatwgUrl.SearchParams(u.value), "redirect_uri") == Some(CallbackUri(base))
      && FormUrlEncoded.Get(WhatwgUrl.SearchParams(u.value), "scope") == Some(Scope(Get(input, "scope")).value)
      && FormUrlEncoded.Get(WhatwgUrl.SearchParams(u.value), "state") == Some(B64url(StateRecord(input)))
  {
    var ps := OutgoingParams(base, clientId, Scope(Get(input, "scope")).value, B64url(StateRecord(input)));
    AuthorizeUrlReadsBack(ps);
    OutgoingParamsGet(base, clientId, Scope(Get(input, "scope")).value, B64url(StateRecord(input)));
  }
}
