/**
 * The internal token proxy (app/api/oauth/token/route.ts): a JSON body carrying either an
 * authorization `code` or a `refresh_token` (the code wins when both are present) is sent to the
 * provider's token endpoint; the mapped answer is saved only when the body names an `athlete_id`.
 * Every failure inside the handler answers the same generic 500.
 */
module TokenRoute {
  import opened Wrappers
  import opened JsonValue
  import opened Js
  import opened Kv
  import opened Remote
  import Env
  import FormUrlEncoded
  import JsonText
  import StravaClient
  import Tokens
  import RedisHelpers

  const MissingGrant: Response :=
    JsonResponse(400, Record([("ok", Some(Bool(false))), ("error", Some(Str("Missing code or refresh_token")))]))
  const Failed: Response :=
    JsonResponse(500, Record([("ok", Some(Bool(false))), ("error", Some(Str("Token exchange/refresh failed")))]))

  /** `{ok: true, tokens: mapped}`. */
  function Success(mapped: Json): Response {
    JsonResponse(200, Record([("ok", Some(Bool(true))), ("tokens", Some(mapped))]))
  }

  /** Whether the body carries an authorization code; if so it is used, whatever else the body holds. */
  predicate UsesCode(body: Json) {
    Truthy(Get(body, "code"))
  }

  /** The form posted to the token endpoint for this body. */
  function GrantForm(c: Env.Config, body: Json): FormUrlEncoded.Pairs
    requires UsesCode(body) || Truthy(Get(body, "refresh_token"))
  {
    if UsesCode(body) then StravaClient.ExchangeForm(c, JsString(Get(body, "code").value))
    else StravaClient.RefreshForm(c, JsString(Get(body, "refresh_token").value))
  }

  /** A code is exchanged even when a refresh token is present too; only without a code is the refresh token used. */
  lemma GrantFormFields(c: Env.Config, body: Json)
    requires UsesCode(body) || Truthy(Get(body, "refresh_token"))
    ensures var form := GrantForm(c, body);
      && FormUrlEncoded.Get(form, "grant_type") == Some(if UsesCode(body) then "authorization_code" else "refresh_token")
      && (UsesCode(body) ==> FormUrlEncoded.Get(form, "code") == Some(JsString(Get(body, "code").value)))
      && (!UsesCode(body) ==> FormUrlEncoded.Get(form, "refresh_token") == Some(JsString(Get(body, "refresh_token").value)))
  {
    var form := GrantForm(c, body);
    if UsesCode(body) {
      FormUrlEncoded.GetFirst(form, "code", 2);
      FormUrlEncoded.GetFirst(form, "grant_type", 3);
    } else {
      FormUrlEncoded.GetFirst(form, "grant_type", 2);
      FormUrlEncoded.GetFirst(form, "refresh_token", 3);
    }
  }

  /** The mapped tokens the provider's reply yields, or the error thrown on the way. */
  function Granted(body: Json, reply: Reply, now: int): (r: Outcome<Json>)
    ensures r.Ok? ==> reply.Reply? && Ok2xx(reply.status)
  {
    var failure := if UsesCode(body) then StravaClient.ExchangeFailed else StravaClient.RefreshFailed;
    match StravaClient.TokenResult(reply, failure)
    case Throw(e) => Throw(e)
    case Ok(answer) => Tokens.MapTokenResponse(answer, now)
  }

  /**
   * The handler's answer to a granted exchange or refresh is the mapped tokens, whose `athlete_id`
   * is the provider's `athlete.id`.
   */
  lemma GrantedTokens(body: Json, reply: Reply, now: int)
    requires Granted(body, reply, now).Ok?
    ensures var answer := JsonText.Parse(reply.body).value;
      && Find(Granted(body, reply, now).value.fields, "athlete_id") == GetOpt(Get(answer, "athlete"), "id")
      && Find(Granted(body, reply, now).value.fields, "access_token") == Get(answer, "access_token")
  {
    Tokens.MapTokenResponseFields(JsonText.Parse(reply.body).value, now);
  }

  /**
   * `POST /api/oauth/token` with the request's body text. A body that is not JSON, or is `null`,
   * throws inside the handler and answers 500 before anything is sent.
   */
  method Post(kv: Store, p: Provider, cfg: Option<Env.Config>, text: string, now: int) returns (res: Response)
    modifies kv`entries, kv`log, p
    ensures var body := JsonParse(text);
      (body.Throw? || body.value.Null?) ==> res == Failed && p.sent == old(p.sent) && kv.log == old(kv.log)
    ensures var body := JsonParse(text);
      body.Ok? && !body.value.Null? && !UsesCode(body.value) && !Truthy(Get(body.value, "refresh_token")) ==>
        res == MissingGrant && p.sent == old(p.sent) && kv.log == old(kv.log)
    ensures var body := JsonParse(text);
      body.Ok? && !body.value.Null? && (UsesCode(body.value) || Truthy(Get(body.value, "refresh_token"))) ==>
        Answered(kv, p, old(kv.entries), old(kv.log), old(p.sent), old(p.replies), cfg, body.value, now, res)
  {
    var body := JsonParse(text);
    if body.Throw? || body.value.Null? {
      return Failed;
    }
    var b := body.value;
    if !UsesCode(b) && !Truthy(Get(b, "refresh_token")) {
      return MissingGrant;
    }
    res := Grant(kv, p, cfg, b, now);
  }

  /**
   * The effects of a grant: without a configuration nothing is sent and the answer is 500; otherwise
   * one form is posted; a failure answers 500 and writes nothing; a success is saved under the body's
   * `athlete_id` exactly when that is truthy, and answered with the mapped tokens.
   */
  ghost predicate Answered(kv: Store, p: Provider, entries0: map<string, Entry>, log0: seq<Op>,
                           sent0: seq<Request>, replies0: seq<Reply>, cfg: Option<Env.Config>,
                           body: Json, now: int, res: Response)
    requires UsesCode(body) || Truthy(Get(body, "refresh_token"))
    reads kv, p
  {
    && (cfg.None? ==> res == Failed && p.sent == sent0 && kv.log == log0 && kv.entries == entries0)
    && (cfg.Some? ==>
          var m := Granted(body, Next(replies0), now);
          var athlete := Get(body, "athlete_id");
          && p.sent == sent0 + [TokenRequest(GrantForm(cfg.value, body))]
          && (m.Throw? ==> res == Failed && kv.log == log0 && kv.entries == entries0)
          && (m.Ok? && !Truthy(athlete) ==> res == Success(m.value) && kv.log == log0 && kv.entries == entries0)
          && (m.Ok? && Truthy(athlete) ==>
                && res == Success(m.value)
                && kv.log == log0 + [SetOp(RedisHelpers.TokensKey(athlete))]
                && kv.entries == if kv.down then entries0
                                 else RedisHelpers.TokensWritten(entries0, athlete, m.value, Env.DefaultTtlSeconds(cfg.value), now)))
  }

  method Grant(kv: Store, p: Provider, cfg: Option<Env.Config>, body: Json, now: int) returns (res: Response)
    requires UsesCode(body) || Truthy(Get(body, "refresh_token"))
    modifies kv`entries, kv`log, p
    ensures Answered(kv, p, old(kv.entries), old(kv.log), old(p.sent), old(p.replies), cfg, body, now, res)
  {
    var mapped := Obtain(p, cfg, body, now);
    if mapped.Throw? {
      return Failed;
    }
    var athlete := Get(body, "athlete_id");
    if Truthy(athlete) {
      var saved := RedisHelpers.SaveTokens(kv, athlete, mapped.value, None, cfg, now);
      if saved.Throw? {
        return Failed;
      }
    }
    res := Success(mapped.value);
  }

  /** The exchange or refresh call followed by `mapStravaTokenResponse`. */
  method Obtain(p: Provider, cfg: Option<Env.Config>, body: Json, now: int) returns (m: Outcome<Json>)
    requires UsesCode(body) || Truthy(Get(body, "refresh_token"))
    modifies p
    ensures cfg.None? ==> m.Throw? && p.sent == old(p.sent)
    ensures cfg.Some? ==>
      && m == Granted(body, Next(old(p.replies)), now)
      && p.sent == old(p.sent) + [TokenRequest(GrantForm(cfg.value, body))]
  {
    var answer;
    if UsesCode(body) {
      answer := StravaClient.ExchangeCodeForToken(p, cfg, JsString(Get(body, "code").value));
    } else {
      answer := StravaClient.RefreshAccessToken(p, cfg, JsString(Get(body, "refresh_token").value));
    }
    match answer {
      case Throw(e) => m := Throw(e);
      case Ok(a) => m := Tokens.MapTokenResponse(a, now);
    }
  }
}
