/**
 * api/oauth/callback.js: the provider's redirect back to the bridge. It decodes the packed state,
 * exchanges the code, saves the tokens in the older store, issues a one-time code, and sends the
 * browser back to the builder (or shows a fallback page carrying the code).
 */
module LegacyCallback {
  import opened Wrappers
  import opened JsonValue
  import opened Js
  import opened Kv
  import opened Remote
  import opened Bytes
  import opened LegacyEnv
  import FormUrlEncoded
  import WhatwgUrl
  import JsonText
  import JsonTextRoundTrip
  import Utf8
  import Base64Url
  import LegacyStore
  import LegacyAuthorize
  import OneTimeCodes

  /** The hosts a back URL may point to (the same three the authorize endpoint trusts). */
  const AllowedRedirectHosts: set<string> := {"chat.openai.com", "chatgpt.com", "platform.openai.com"}

  // ---------------------------------------------------------------- state

  /** `safeParseState(raw)`: base64url JSON first, then plain JSON, else {}; it never throws. */
  function SafeParseState(raw: Option<Json>): Json {
    var text := JsStringOf(raw);
    match JsonText.Parse(Utf8.Decode(Base64Url.Decode(text)))
    case Some(j) => j
    case None => JsonText.Parse(text).GetOr(Obj([]))
  }

  /** The state packed by the authorize endpoint decodes back to the record it packed. */
  lemma StateRoundTrip(rec: Json)
    requires WellFormed(rec)
    ensures SafeParseState(Some(Str(LegacyAuthorize.B64url(rec)))) == rec
  {
    var text := JsonText.Serialize(rec);
    Base64Url.DecodeEncode(Utf8.Encode(text));
    Utf8.DecodeEncode(text);
    JsonTextRoundTrip.SerializeParse(rec);
  }

  /** Text that is neither kind of JSON reads as the empty object. */
  lemma StateFallback(raw: Option<Json>)
    requires JsonText.Parse(Utf8.Decode(Base64Url.Decode(JsStringOf(raw)))).None?
    requires JsonText.Parse(JsStringOf(raw)).None?
    ensures SafeParseState(raw) == Obj([])
  {
  }

  // ---------------------------------------------------------------- back URL

  /** The URL after `searchParams.set('code', code)` and, for a truthy tool state, `set('state', ...)`. */
  function BackTarget(u: WhatwgUrl.Url, code: string, toolState: Option<Json>): WhatwgUrl.Url {
    var withCode := WhatwgUrl.SetSearchParam(u, "code", code);
    if Truthy(toolState) then WhatwgUrl.SetSearchParam(withCode, "state", JsString(toolState.value)) else withCode
  }

  /** `buildBackUrl(uri, code, toolState)`: null for text that is not a URL or a host outside the three. */
  function BuildBackUrl(uri: Json, code: string, toolState: Option<Json>): Option<string> {
    var u := WhatwgUrl.Parse(JsString(uri));
    if u.None? || u.value.host !in AllowedRedirectHosts then None
    else Some(WhatwgUrl.Href(BackTarget(u.value, code, toolState)))
  }

  /** A back URL exists exactly for a parsable URI on an allowed host: the path is not checked. */
  lemma BackUrlExists(uri: Json, code: string, toolState: Option<Json>)
    ensures BuildBackUrl(uri, code, toolState).Some? <==>
      WhatwgUrl.Parse(JsString(uri)).Some? && WhatwgUrl.Parse(JsString(uri)).value.host in AllowedRedirectHosts
  {
  }

  /** Every return URI the authorize endpoint accepts has a back URL. */
  lemma AllowedHasBackUrl(uri: Json, code: string, toolState: Option<Json>)
    requires LegacyAuthorize.IsAllowedToolRedirect(uri)
    ensures BuildBackUrl(uri, code, toolState).Some?
  {
  }

  /**
   * The back URL parses to the tool's URL with the same host and path, `code` set to the given
   * code, and `state` set to the tool state when it is truthy (otherwise whatever the URI had).
   */
  lemma BackUrlReadsBack(uri: Json, code: string, toolState: Option<Json>)
    requires BuildBackUrl(uri, code, toolState).Some?
    ensures var u := WhatwgUrl.Parse(JsString(uri)).value;
      var b := WhatwgUrl.Parse(BuildBackUrl(uri, code, toolState).value);
      && b.Some? && b.value.host == u.host && b.value.path == u.path
      && FormUrlEncoded.Get(WhatwgUrl.SearchParams(b.value), "code") == Some(code)
      && FormUrlEncoded.Get(WhatwgUrl.SearchParams(b.value), "state") ==
           if Truthy(toolState) then Some(JsString(toolState.value)) else FormUrlEncoded.Get(WhatwgUrl.SearchParams(u), "state")
  {
    var u := WhatwgUrl.Parse(JsString(uri)).value;
    WhatwgUrl.ParseValid(JsString(uri));
    var withCode := WhatwgUrl.SetSearchParam(u, "code", code);
    WhatwgUrl.SetSearchParamValid(u, "code", code);
    WhatwgUrl.SetSearchParamGet(u, "code", code, "state");
    if Truthy(toolState) {
      WhatwgUrl.SetSearchParamValid(withCode, "state", JsString(toolState.value));
      WhatwgUrl.SetSearchParamGet(withCode, "state", JsString(toolState.value), "code");
    }
    WhatwgUrl.ParseHref(BackTarget(u, code, toolState));
  }

  // ---------------------------------------------------------------- the handler

  /** The exchange form: client id, secret, the code, grant_type and the bridge's own callback URI. */
  function ExchangeForm(env: LegacyEnv.Env, code: Json): FormUrlEncoded.Pairs {
    [("client_id", TextOf(env.clientId)), ("client_secret", TextOf(env.clientSecret)), ("code", JsString(code)),
     ("grant_type", "authorization_code"), ("redirect_uri", CallbackUri(TextOf(env.base)))]
  }

  /** `await r.json()` after the fetch: the parsed body, or what was thrown on the way. */
  function ExchangeData(reply: Reply): (r: Outcome<Json>)
    ensures r.Ok? ==> reply.Reply?
  {
    match Fetched(reply)
    case Throw(e) => Throw(e)
    case Ok(resp) => BodyJson(resp)
  }

  /** `String(data?.athlete?.id || '')`. */
  function AthleteSub(data: Json): string {
    JsStringOf(Or(GetOpt(Get(data, "athlete"), "id"), Some(Str(""))))
  }

  /** The saved record: access_token, refresh_token, expires_at, scope and athlete of the answer. */
  function SavedRecord(data: Json): Json {
    Record(LegacyStore.RefreshedFields(data))
  }

  /** `res.status(500).send(e.message || 'callback_failed')`. */
  function Failure(e: JsError): Response {
    Response(500, TextBody(if e.message == "" then "callback_failed" else e.message), None)
  }

  /** The last step: a 302 to the back URL when there is one, else the fallback page with the code. */
  function Landing(st: Json, otc: string): Response {
    var uri := Get(st, "tool_redirect_uri");
    var back := if Truthy(uri) then BuildBackUrl(uri.value, otc, Get(st, "tool_state")) else None;
    if back.Some? then Redirect(back.value)
    else if st.Null? then Failure(TypeError("Cannot read properties of null (reading 'tool_state')"))
    else Response(200, HtmlPage(Some(otc)), None)
  }

  /**
   * A state packed by the authorize endpoint for an allowed return URI lands with a 302 on that
   * URI's host and path, carrying the one-time code.
   */
  lemma AuthorizedStateLands(input: Json, otc: string)
    requires WellFormed(input)
    requires Truthy(Get(input, "redirect_uri")) && LegacyAuthorize.IsAllowedToolRedirect(Get(input, "redirect_uri").value)
    ensures var st := SafeParseState(Some(Str(LegacyAuthorize.B64url(LegacyAuthorize.StateRecord(input)))));
      var r := Landing(st, otc);
      && r.status == 302 && r.location.Some?
      && var b := WhatwgUrl.Parse(r.location.value);
      && b.Some? && b.value.host in AllowedRedirectHosts
      && FormUrlEncoded.Get(WhatwgUrl.SearchParams(b.value), "code") == Some(otc)
  {
    StateUnpacks(input);
    var uri := Get(input, "redirect_uri").value;
    AllowedHasBackUrl(uri, otc, Get(input, "state"));
    BackUrlReadsBack(uri, otc, Get(input, "state"));
  }

  /** The state the callback reads back is the record the authorize endpoint packed. */
  lemma StateUnpacks(input: Json)
    requires WellFormed(input)
    ensures var rec := LegacyAuthorize.StateRecord(input);
      && SafeParseState(Some(Str(LegacyAuthorize.B64url(rec)))) == rec
      && Get(rec, "tool_redirect_uri") == Get(input, "redirect_uri")
      && Get(rec, "tool_state") == Get(input, "state")
  {
    var rec := LegacyAuthorize.StateRecord(input);
    var ps := [("tool_redirect_uri", Get(input, "redirect_uri")), ("tool_state", Get(input, "state"))];
    RecordFind(ps, 0);
    RecordFind(ps, 1);
    StateWellFormed(input);
    StateRoundTrip(rec);
  }

  lemma StateWellFormed(input: Json)
    requires WellFormed(input)
    ensures WellFormed(LegacyAuthorize.StateRecord(input))
  {
    var ps := [("tool_redirect_uri", Get(input, "redirect_uri")), ("tool_state", Get(input, "state"))];
    GetWellFormed(input, "redirect_uri");
    GetWellFormed(input, "state");
    RecordWellFormed(ps);
  }

  predicate Configured(env: LegacyEnv.Env) {
    Present(env.base) && Present(env.clientId) && Present(env.clientSecret)
  }

  /**
   * The handler. Only GET is served; the configuration is checked, then a missing code is refused
   * before anything is sent. The code is exchanged; a failed exchange (502) or an answer without
   * athlete id (502) persists nothing. Otherwise the tokens are saved under the athlete id first
   * and the one-time code issued second, and the browser lands on the back URL or the fallback page.
   */
  method Handler(kv: Store, p: Provider, env: LegacyEnv.Env, verb: string, query: Option<Json>, bytes: seq<byte>, now: int)
    returns (res: Response)
    requires |bytes| == 24
    modifies kv`entries, kv`log, p
    ensures verb != "GET" ==> res == Response(405, NoBody, None) && p.sent == old(p.sent) && kv.log == old(kv.log)
    ensures verb == "GET" && !Configured(env) ==> res.status == 500 && p.sent == old(p.sent) && kv.log == old(kv.log)
    ensures verb == "GET" && Configured(env) && !Truthy(GetOpt(query, "code")) ==>
      res == Response(400, TextBody("missing_code"), None) && p.sent == old(p.sent) && kv.log == old(kv.log)
    ensures verb == "GET" && Configured(env) && Truthy(GetOpt(query, "code")) ==>
      var reply := Next(old(p.replies));
      var data := ExchangeData(reply);
      && p.sent == old(p.sent) + [TokenRequest(ExchangeForm(env, GetOpt(query, "code").value))]
      && (data.Throw? ==> res == Failure(data.error) && kv.log == old(kv.log))
      && (data.Ok? && !Ok2xx(reply.status) ==>
            res == Response(502, TextBody("strava_exchange_failed"), None) && kv.log == old(kv.log))
      && (data.Ok? && Ok2xx(reply.status) && AthleteSub(data.value) == "" ==>
            res == Response(502, TextBody("no_athlete_id"), None) && kv.log == old(kv.log))
      && (data.Ok? && Ok2xx(reply.status) && AthleteSub(data.value) != "" ==>
            Persisted(kv, old(kv.entries), old(kv.log), data.value, SafeParseState(GetOpt(query, "state")), bytes, now, res))
    ensures kv.log == old(kv.log) ==> kv.entries == old(kv.entries)
  {
    if verb != "GET" {
      return Response(405, NoBody, None);
    }
    var code := GetOpt(query, "code");
    var rawSt := GetOpt(query, "state");
    if !Present(env.base) {
      return Failure(Error("Missing PUBLIC_BASE_URL"));
    }
    if !Present(env.clientId) || !Present(env.clientSecret) {
      return Failure(Error("Missing STRAVA_CLIENT_ID/SECRET"));
    }
    if !Truthy(code) {
      return Response(400, TextBody("missing_code"), None);
    }
    var st := SafeParseState(rawSt);
    var resp := p.Fetch(TokenRequest(ExchangeForm(env, code.value)));
    if resp.Throw? {
      return Failure(resp.error);
    }
    var data := BodyJson(resp.value);
    if data.Throw? {
      return Failure(data.error);
    }
    if !Ok2xx(resp.value.status) {
      return Response(502, TextBody("strava_exchange_failed"), None);
    }
    var sub := AthleteSub(data.value);
    if sub == "" {
      return Response(502, TextBody("no_athlete_id"), None);
    }
    res := Persist(kv, data.value, sub, st, bytes, now);
  }

  /**
   * The effects of a successful exchange: with the store up, the token record under the athlete's
   * key and then the one-time code, and the landing response; with the store down, the save fails
   * and no code is issued.
   */
  ghost predicate Persisted(kv: Store, entries0: map<string, Entry>, log0: seq<Op>, data: Json, st: Json,
                            bytes: seq<byte>, now: int, res: Response)
    requires |bytes| == 24
    reads kv
  {
    var sub := AthleteSub(data);
    var tokKey := LegacyStore.TokKey(Some(Str(sub)));
    var otc := OneTimeCodes.CodeOf(bytes);
    && (!kv.down ==>
          && res == Landing(st, otc)
          && kv.log == log0 + [SetOp(tokKey), SetOp(OneTimeCodes.CodeKey(otc))]
          && kv.entries == Written(Written(entries0, tokKey, JsonText.Serialize(SavedRecord(data)), None, now),
                                   OneTimeCodes.CodeKey(otc), sub, Some(OneTimeCodes.TtlSeconds), now))
    && (kv.down ==> res == Failure(Unavailable) && kv.log == log0 + [SetOp(tokKey)] && kv.entries == entries0)
  }

  /** Save the tokens, then issue the one-time code, then land. */
  method Persist(kv: Store, data: Json, sub: string, st: Json, bytes: seq<byte>, now: int) returns (res: Response)
    requires |bytes| == 24 && sub == AthleteSub(data) && sub != ""
    modifies kv`entries, kv`log
    ensures Persisted(kv, old(kv.entries), old(kv.log), data, st, bytes, now, res)
  {
    var otc := Save(kv, data, sub, bytes, now);
    match otc {
      case Throw(e) => res := Failure(e);
      case Ok(code) => res := Landing(st, code);
    }
  }

  /**
   * The two writes: the token record under the athlete's key, then the one-time code naming the
   * athlete. With the store down the first write fails and the code is never issued.
   */
  method Save(kv: Store, data: Json, sub: string, bytes: seq<byte>, now: int) returns (otc: Outcome<string>)
    requires |bytes| == 24 && sub == AthleteSub(data) && sub != ""
    modifies kv`entries, kv`log
    ensures var tokKey, code := LegacyStore.TokKey(Some(Str(sub))), OneTimeCodes.CodeOf(bytes);
      && (!kv.down ==>
            && otc == Ok(code)
            && kv.log == old(kv.log) + [SetOp(tokKey), SetOp(OneTimeCodes.CodeKey(code))]
            && kv.entries == Written(Written(old(kv.entries), tokKey, JsonText.Serialize(SavedRecord(data)), None, now),
                                     OneTimeCodes.CodeKey(code), sub, Some(OneTimeCodes.TtlSeconds), now))
      && (kv.down ==> otc == Throw(Unavailable) && kv.log == old(kv.log) + [SetOp(tokKey)] && kv.entries == old(kv.entries))
  {
    var saved := LegacyStore.SaveTokens(kv, Some(Str(sub)), SavedRecord(data), now);
    if saved.Throw? {
      return Throw(saved.error);
    }
    otc := OneTimeCodes.Issue(kv, sub, bytes, now);
  }
}
