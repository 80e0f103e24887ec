/**
 * The token URL of the assistant's OAuth flow (api/oauth/token.js): the body (form-encoded, JSON or,
 * failing both, the query string) carries the one-time code issued at the callback; the code is
 * consumed and a seven-day app token for its subject is returned in the standard OAuth shape.
 */
module OAuthToken {
  import opened Wrappers
  import opened JsonValue
  import opened Js
  import opened Kv
  import Env
  import JsonText
  import JsonTextRoundTrip
  import FormUrlEncoded
  import WhatwgUrl
  import LegacyEnv
  import OneTimeCodes

  /** `s.includes(part)`. */
  predicate Includes(s: string, part: string)
    decreases |s|
  {
    (|part| <= |s| && s[..|part|] == part) || (s != [] && Includes(s[1..], part))
  }

  lemma {:induction false} IncludesPrefix(part: string, rest: string)
    ensures Includes(part + rest, part)
  {
    assert (part + rest)[..|part|] == part;
  }

  /** `(contentType || '').toLowerCase().includes(part)`. */
  predicate Says(contentType: Option<string>, part: string) {
    Includes(WhatwgUrl.Lower(if contentType.Some? then contentType.value else ""), part)
  }

  const FormType: string := "application/x-www-form-urlencoded"
  const JsonType: string := "application/json"

  /** `new URLSearchParams(text).get('code') || ''`. */
  function FormCode(text: string): string {
    FormUrlEncoded.Get(FormUrlEncoded.Parse(text), "code").GetOr("")
  }

  lemma FormCodeSerialized(code: string)
    ensures FormCode(FormUrlEncoded.Serialize([("code", code)])) == code
  {
    var ps := [("code", code)];
    FormUrlEncoded.ParseSerialize(ps);
    FormUrlEncoded.GetFirst(ps, "code", 0);
  }

  /** `{ code: v || '' }`. */
  function CodeRecord(v: Option<Json>): Json {
    Record([("code", Some(if Truthy(v) then v.value else Str("")))])
  }

  /** `req.body && typeof req.body === 'object'` (arrays are objects too). */
  predicate ObjectBody(body: Option<Json>) {
    body.Some? && (body.value.Obj? || body.value.Arr?)
  }

  /**
   * `parseBody(req)`: a form-encoded string body gives its `code` (or ''), a form-encoded object body
   * its `code` (or ''); a JSON string body is parsed (malformed text gives {}), a JSON object body is
   * taken as it is; anything else falls back to the query's `code` (or '').
   */
  function ParseBody(contentType: Option<string>, body: Option<Json>, query: Option<Json>): (r: Json)
    ensures r.Null? ==> body.Some? && body.value.Str? && JsonText.Parse(body.value.s) == Some(Null)
  {
    if Says(contentType, FormType) && body.Some? && body.value.Str? then
      CodeRecord(Some(Str(FormCode(body.value.s))))
    else if Says(contentType, FormType) && ObjectBody(body) then
      CodeRecord(Get(body.value, "code"))
    else if Says(contentType, JsonType) && body.Some? && body.value.Str? then
      match JsonText.Parse(body.value.s)
      case Some(j) => j
      case None => Obj([])
    else if Says(contentType, JsonType) && ObjectBody(body) then
      body.value
    else
      CodeRecord(GetOpt(Or(query, Some(Obj([]))), "code"))
  }

  /** The code a parsed body carries, as destructuring `{ code }` reads it. */
  function CodeOf(parsed: Json): Option<Json> {
    Get(parsed, "code")
  }

  /** A form-encoded body made of a code reads back as that code. */
  lemma FormBodyCode(contentType: string, code: string, query: Option<Json>)
    requires Says(Some(contentType), FormType)
    ensures CodeOf(ParseBody(Some(contentType), Some(Str(FormUrlEncoded.Serialize([("code", code)]))), query)) == Some(Str(code))
  {
    var text := FormUrlEncoded.Serialize([("code", code)]);
    FormCodeSerialized(code);
    FormBodyText(contentType, text, query);
  }

  lemma FormBodyText(contentType: string, text: string, query: Option<Json>)
    requires Says(Some(contentType), FormType)
    ensures CodeOf(ParseBody(Some(contentType), Some(Str(text)), query)) == Some(Str(FormCode(text)))
  {
    RecordFind([("code", Some(Str(FormCode(text))))], 0);
  }

  /** A JSON text body made of a code reads back as that code, unless the content type also says form. */
  lemma JsonBodyCode(contentType: string, code: string, query: Option<Json>)
    requires !Says(Some(contentType), FormType) && Says(Some(contentType), JsonType)
    ensures var text := JsonText.Serialize(Record([("code", Some(Str(code)))]));
      CodeOf(ParseBody(Some(contentType), Some(Str(text)), query)) == Some(Str(code))
  {
    var ps := [("code", Some(Str(code)))];
    RecordWellFormed(ps);
    JsonTextRoundTrip.SerializeParse(Record(ps));
    RecordFind(ps, 0);
  }

  /** Without a body type the handler recognises, the code comes from the query string. */
  lemma QueryCode(contentType: string, body: Option<Json>, code: Json)
    requires !Says(Some(contentType), FormType) && !Says(Some(contentType), JsonType)
    requires Truthy(Some(code))
    ensures CodeOf(ParseBody(Some(contentType), body, Some(Record([("code", Some(code))])))) == Some(code)
  {
    RecordFind([("code", Some(code))], 0);
  }

  const MissingCode: Response := JsonResponse(400, ErrorObject("invalid_request", "Missing code"))
  const InvalidGrant: Response := JsonResponse(400, ErrorObject("invalid_grant", "Code invalid or expired"))

  /** The catch-all: `{error: 'server_error', error_description: e.message}` with status 500. */
  function ServerError(e: JsError): Response {
    JsonResponse(500, ErrorObject("server_error", e.message))
  }

  /** Destructuring `{ code }` out of `null` throws. */
  const NullBody: JsError := TypeError("Cannot destructure property 'code' of null")

  /** `{access_token, token_type: 'bearer', expires_in: 604800}`. */
  function Issued(token: string): Response {
    JsonResponse(200, Record([("access_token", Some(Str(token))), ("token_type", Some(Str("bearer"))),
                              ("expires_in", Some(Num(LegacyEnv.AppTokenLifetime)))]))
  }

  /**
   * `POST /api/oauth/token`. Nothing is consumed unless the body carries a code; a code consumed
   * once is gone, so the subject is issued a token for it at most once.
   */
  method Handler(kv: Store, env: LegacyEnv.Env, sign: LegacyEnv.Signer, verb: string,
                 contentType: Option<string>, body: Option<Json>, query: Option<Json>, now: int)
    returns (res: Response)
    modifies kv`entries, kv`log
    ensures verb != "POST" ==> res == Response(405, NoBody, None) && kv.log == old(kv.log) && kv.entries == old(kv.entries)
    ensures var parsed := ParseBody(contentType, body, query);
      verb == "POST" && parsed.Null? ==> res == ServerError(NullBody) && kv.log == old(kv.log) && kv.entries == old(kv.entries)
    ensures var parsed := ParseBody(contentType, body, query);
      verb == "POST" && !parsed.Null? && !Truthy(CodeOf(parsed)) ==>
        res == MissingCode && kv.log == old(kv.log) && kv.entries == old(kv.entries)
    ensures var parsed := ParseBody(contentType, body, query);
      verb == "POST" && !parsed.Null? && Truthy(CodeOf(parsed)) ==>
        Redeemed(kv, old(kv.entries), old(kv.log), env, sign, JsString(CodeOf(parsed).value), now, res)
  {
    if verb != "POST" {
      return Response(405, NoBody, None);
    }
    var parsed := ParseBody(contentType, body, query);
    if parsed.Null? {
      return ServerError(NullBody);
    }
    var code := CodeOf(parsed);
    if !Truthy(code) {
      return MissingCode;
    }
    res := Redeem(kv, env, sign, code.value, now);
  }

  /**
   * The effects of redeeming a code: with the store down, a 500 and nothing removed; otherwise a code
   * with no live subject is refused and left as it was, and a live one is removed and, when its
   * subject is non-empty, answered with an app token for that subject.
   */
  ghost predicate Redeemed(kv: Store, entries0: map<string, Entry>, log0: seq<Op>, env: LegacyEnv.Env,
                           sign: LegacyEnv.Signer, code: string, now: int, res: Response)
    reads kv
  {
    var key := OneTimeCodes.CodeKey(code);
    var sub := OneTimeCodes.Consumed(Lookup(entries0, key, now));
    && (kv.down ==> res == ServerError(Unavailable) && kv.entries == entries0 && kv.log == log0 + [GetOp(key)])
    && (!kv.down && sub.None? ==> res == InvalidGrant && kv.entries == entries0 && kv.log == log0 + [GetOp(key)])
    && (!kv.down && sub.Some? ==>
          && kv.entries == entries0 - {key} && kv.log == log0 + [GetOp(key), DelOp(key)]
          && res == if sub.value == "" then InvalidGrant else Issued(LegacyEnv.AppToken(sign, env, sub.value)))
  }

  /** `consumeOneTimeCode(code)`, then the answer. */
  method Redeem(kv: Store, env: LegacyEnv.Env, sign: LegacyEnv.Signer, code: Json, now: int) returns (res: Response)
    modifies kv`entries, kv`log
    ensures Redeemed(kv, old(kv.entries), old(kv.log), env, sign, JsString(code), now, res)
  {
    var sub := OneTimeCodes.Consume(kv, code, now);
    match sub {
      case Throw(e) => res := ServerError(e);
      case Ok(s) =>
        if !Env.Filled(s) {
          res := InvalidGrant;
        } else {
          res := Issued(LegacyEnv.AppToken(sign, env, s.value));
        }
    }
  }

  /** Once a code has yielded nothing, or been removed, it yields nothing at any later time. */
  lemma StaysConsumed(entries: map<string, Entry>, key: string, now: int, later: int)
    requires now <= later
    ensures OneTimeCodes.Consumed(Lookup(entries, key, now)).None? ==> OneTimeCodes.Consumed(Lookup(entries, key, later)).None?
    ensures OneTimeCodes.Consumed(Lookup(entries - {key}, key, later)).None?
  {
  }

  /** Presented twice in a row, the same code is refused the second time. */
  method PresentTwice(kv: Store, env: LegacyEnv.Env, sign: LegacyEnv.Signer,
                      contentType: Option<string>, body: Option<Json>, query: Option<Json>, now: int, later: int)
    returns (first: Response, second: Response)
    requires now <= later
    modifies kv`entries, kv`log
    ensures var parsed := ParseBody(contentType, body, query);
      !kv.down && !parsed.Null? && Truthy(CodeOf(parsed)) ==> second == InvalidGrant
  {
    var entries0 := kv.entries;
    first := Handler(kv, env, sign, "POST", contentType, body, query, now);
    var parsed := ParseBody(contentType, body, query);
    if !parsed.Null? && Truthy(CodeOf(parsed)) {
      StaysConsumed(entries0, OneTimeCodes.CodeKey(JsString(CodeOf(parsed).value)), now, later);
    }
    second := Handler(kv, env, sign, "POST", contentType, body, query, later);
  }
}
