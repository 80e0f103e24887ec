/**
 * The older app-token endpoint (api/token.js): the same one-time-code redemption as the OAuth token
 * URL, with a JSON body only and a different answer shape (`token` instead of `access_token`, and
 * `details` in the error).
 */
module AppToken {
  import opened Wrappers
  import opened JsonValue
  import opened Js
  import opened Kv
  import Env
  import JsonText
  import JsonTextRoundTrip
  import LegacyEnv
  import OneTimeCodes

  /**
   * `typeof req.body === 'string' ? JSON.parse(req.body || '{}') : (req.body || {})`: an empty text
   * is read as `{}`, malformed text throws, and a missing or falsy decoded body becomes `{}`.
   */
  function Body(body: Option<Json>): (r: Outcome<Json>)
    ensures body.Some? && body.value.Str? ==> r == JsonParse(if body.value.s == "" then "{}" else body.value.s)
    ensures !(body.Some? && body.value.Str?) ==> r.Ok? && (Truthy(body) ==> r.value == body.value)
  {
    if body.Some? && body.value.Str? then JsonParse(if body.value.s == "" then "{}" else body.value.s)
    else Ok(Or(body, Some(Obj([]))).value)
  }

  /** An empty text body reads as an empty object, so it carries no code. */
  lemma EmptyTextBody()
    ensures Body(Some(Str(""))) == Ok(Obj([]))
  {
    var e := Obj([]);
    assert JsonText.Serialize(e) == "{}" by {
      assert JsonText.Serialize(e) == "{" + JsonText.SerializeFields([]) + "}";
    }
    JsonTextRoundTrip.SerializeParse(e);
  }

  const MissingCode: Response := JsonResponse(400, ErrorObject("invalid_request", "Missing code"))
  const InvalidGrant: Response := JsonResponse(400, ErrorObject("invalid_grant", "Code invalid or expired"))

  /** `{error: 'server_error', details: e.message}` with status 500. */
  function ServerError(e: JsError): Response {
    JsonResponse(500, Record([("error", Some(Str("server_error"))), ("details", Some(Str(e.message)))]))
  }

  /** `{token, token_type: 'bearer', expires_in: 604800}`. */
  function Issued(token: string): Response {
    JsonResponse(200, Record([("token", Some(Str(token))), ("token_type", Some(Str("bearer"))),
                              ("expires_in", Some(Num(LegacyEnv.AppTokenLifetime)))]))
  }

  /** The effects of redeeming a code; the shape matches the OAuth token URL's apart from the answers. */
  ghost predicate Redeemed(kv: Store, entries0: map<string, Entry>, log0: seq<Op>, env: LegacyEnv.Env,
                           sign: LegacyEnv.Signer, code: string, now: int, res: Response)
    reads kv
  {
    var key := OneTimeCodes.CodeKey(code);
    var sub := OneTimeCodes.Consumed(Lookup(entries0, key, now));
    && (kv.down ==> res == ServerError(Unavailable) && kv.entries == entries0 && kv.log == log0 + [GetOp(key)])
    && (!kv.down && sub.None? ==> res == InvalidGrant && kv.entries == entries0 && kv.log == log0 + [GetOp(key)])
    && (!kv.down && sub.Some? ==>
          && kv.entries == entries0 - {key} && kv.log == log0 + [GetOp(key), DelOp(key)]
          && res == if sub.value == "" then InvalidGrant else Issued(LegacyEnv.AppToken(sign, env, sub.value)))
  }

  /** `POST /api/token`. A malformed text body throws and answers 500 before anything is consumed. */
  method Handler(kv: Store, env: LegacyEnv.Env, sign: LegacyEnv.Signer, verb: string, body: Option<Json>, now: int)
    returns (res: Response)
    modifies kv`entries, kv`log
    ensures verb != "POST" ==> res == Response(405, NoBody, None) && kv.log == old(kv.log) && kv.entries == old(kv.entries)
    ensures verb == "POST" && Body(body).Throw? ==>
      res == ServerError(Body(body).error) && kv.log == old(kv.log) && kv.entries == old(kv.entries)
    ensures verb == "POST" && Body(body).Ok? && !Truthy(Get(Body(body).value, "code")) ==>
      res == MissingCode && kv.log == old(kv.log) && kv.entries == old(kv.entries)
    ensures verb == "POST" && Body(body).Ok? && Truthy(Get(Body(body).value, "code")) ==>
      Redeemed(kv, old(kv.entries), old(kv.log), env, sign, JsString(Get(Body(body).value, "code").value), now, res)
  {
    if verb != "POST" {
      return Response(405, NoBody, None);
    }
    var parsed := Body(body);
    if parsed.Throw? {
      return ServerError(parsed.error);
    }
    var code := Get(parsed.value, "code");
    if !Truthy(code) {
      return MissingCode;
    }
    res := Redeem(kv, env, sign, code.value, now);
  }

  method Redeem(kv: Store, env: LegacyEnv.Env, sign: LegacyEnv.Signer, code: Json, now: int) returns (res: Response)
    modifies kv`entries, kv`log
    ensures Redeemed(kv, old(kv.entries), old(kv.log), env, sign, JsString(code), now, res)
  {
    var sub := OneTimeCodes.Consume(kv, code, now);
    match sub {
      case Throw(e) => res := ServerError(e);
      case Ok(s) =>
        if !Env.Filled(s) {
          res := InvalidGrant;
        } else {
          res := Issued(LegacyEnv.AppToken(sign, env, s.value));
        }
    }
  }
}
