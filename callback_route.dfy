/**
 * The App Router OAuth callback (app/api/oauth/callback/route.ts): the provider's `error` is
 * refused first, then a missing code or state; the state must name a stored state record; the code
 * is exchanged and the mapped tokens saved under their athlete id, and only then is the state record
 * deleted. The browser is sent on to the record's `tool_redirect_uri` when it parses as a URL.
 */
module CallbackRoute {
  import opened Wrappers
  import opened JsonValue
  import opened Js
  import opened Kv
  import opened Remote
  import Env
  import JsonText
  import FormUrlEncoded
  import WhatwgUrl
  import StravaClient
  import Tokens
  import RedisHelpers

  /** `{ok: false, error}`. */
  function Refusal(status: int, error: Json): Response {
    JsonResponse(status, Record([("ok", Some(Bool(false))), ("error", Some(error))]))
  }

  const MissingCodeOrState: Response := Refusal(400, Str("Missing code or state"))
  const InvalidState: Response := Refusal(400, Str("Invalid state"))
  const ExchangeFailed: Response := Refusal(500, Str("Token exchange failed"))

  /** The fallback page, which shows no code. */
  const FallbackPage: Response := Response(200, HtmlPage(None), None)

  /** Where the browser goes once the tokens are saved: the state record's return URI, or the fallback page. */
  function ToolReturn(rec: Json): (res: Response)
    ensures res.status == 302 <==>
      Truthy(Get(rec, "tool_redirect_uri")) && WhatwgUrl.Parse(JsString(Get(rec, "tool_redirect_uri").value)).Some?
    ensures res.status != 302 ==> res == FallbackPage
    ensures res.status == 302 ==> res.location.Some?
  {
    var t := Get(rec, "tool_redirect_uri");
    if !Truthy(t) then FallbackPage
    else match WhatwgUrl.Parse(JsString(t.value))
      case Some(u) => Redirect(WhatwgUrl.Href(u))
      case None => FallbackPage
  }

  /** A well-formed return URI stored in the state record is where the browser lands, unchanged. */
  lemma ToolReturnRedirects(rec: Json, u: WhatwgUrl.Url)
    requires WhatwgUrl.Valid(u)
    requires Get(rec, "tool_redirect_uri") == Some(Str(WhatwgUrl.Href(u)))
    ensures ToolReturn(rec) == Redirect(WhatwgUrl.Href(u))
  {
    var h := WhatwgUrl.Href(u);
    assert |h| >= 3;
    ToolReturnText(rec, h);
    WhatwgUrl.ParseHref(u);
  }

  /**
   * Any other parsable return URI is sent re-serialized: the Location header is the standard's
   * serialization of that URL, which holds only printable ASCII (spaces and other code points
   * percent-encoded) and parses back to the same URL.
   */
  lemma ToolReturnSerialized(rec: Json, h: string)
    requires h != [] && Get(rec, "tool_redirect_uri") == Some(Str(h)) && WhatwgUrl.Parse(h).Some?
    ensures var loc := WhatwgUrl.Href(WhatwgUrl.Parse(h).value);
      && ToolReturn(rec) == Redirect(loc)
      && WhatwgUrl.AllVisible(loc)
      && WhatwgUrl.Parse(loc) == WhatwgUrl.Parse(h)
  {
    ToolReturnText(rec, h);
    WhatwgUrl.ParseValid(h);
    WhatwgUrl.HrefVisible(WhatwgUrl.Parse(h).value);
  }

  lemma ToolReturnText(rec: Json, h: string)
    requires h != [] && Get(rec, "tool_redirect_uri") == Some(Str(h))
    ensures ToolReturn(rec) == if WhatwgUrl.Parse(h).Some? then Redirect(WhatwgUrl.Href(WhatwgUrl.Parse(h).value)) else FallbackPage
  {
  }

  /** What the exchange yields for the provider's reply: the mapped tokens, or the error thrown. */
  function Exchanged(reply: Reply, now: int): (r: Outcome<Json>)
    ensures r.Ok? ==> reply.Reply? && Ok2xx(reply.status)
  {
    match StravaClient.TokenResult(reply, StravaClient.ExchangeFailed)
    case Throw(e) => Throw(e)
    case Ok(body) => Tokens.MapTokenResponse(body, now)
  }

  /** The key the tokens are saved under is the athlete id of the provider's answer. */
  lemma ExchangedAthlete(reply: Reply, now: int)
    requires Exchanged(reply, now).Ok?
    ensures var body := JsonText.Parse(reply.body).value;
      Get(Exchanged(reply, now).value, "athlete_id") == GetOpt(Get(body, "athlete"), "id")
  {
    var body := JsonText.Parse(reply.body).value;
    Tokens.MapTokenResponseFields(body, now);
  }

  /** A refused or unparsable exchange leaves nothing to save. */
  lemma RefusedExchange(reply: Reply, now: int)
    requires reply.NetworkFailure? || !Ok2xx(reply.status)
    ensures Exchanged(reply, now).Throw?
  {
  }

  /**
   * The effects of the exchange and what follows, from the store's and provider's states before it:
   * without a configuration nothing is sent; a failed exchange or mapping answers 500 and leaves the
   * store untouched (the state record stays); otherwise the tokens are saved, then the state deleted.
   */
  ghost predicate Completed(kv: Store, p: Provider, entries0: map<string, Entry>, log0: seq<Op>,
                            sent0: seq<Request>, replies0: seq<Reply>, cfg: Option<Env.Config>,
                            code: string, state: string, rec: Json, now: int, res: Response)
    reads kv, p
  {
    && (cfg.None? ==> res == ExchangeFailed && p.sent == sent0 && kv.log == log0 && kv.entries == entries0)
    && (cfg.Some? ==>
          var m := Exchanged(Next(replies0), now);
          && p.sent == sent0 + [TokenRequest(StravaClient.ExchangeForm(cfg.value, code))]
          && (m.Throw? ==> res == ExchangeFailed && kv.log == log0 && kv.entries == entries0)
          && (m.Ok? ==>
                var athlete := Get(m.value, "athlete_id");
                && res == ToolReturn(rec)
                && kv.log == log0 + [SetOp(RedisHelpers.TokensKey(athlete)), DelOp(RedisHelpers.OAuthStateKey(state))]
                && kv.entries == if kv.down then entries0
                                 else RedisHelpers.TokensWritten(entries0, athlete, m.value, Env.DefaultTtlSeconds(cfg.value), now)
                                      - {RedisHelpers.OAuthStateKey(state)}))
  }

  /** `GET /api/oauth/callback` with the request URL's query parameters. */
  method Handle(kv: Store, p: Provider, cfg: Option<Env.Config>, query: FormUrlEncoded.Pairs, now: int) returns (res: Response)
    modifies kv`entries, kv`log, p
    ensures var error := FormUrlEncoded.Get(query, "error");
      Env.Filled(error) ==> res == Refusal(400, Str(error.value)) && kv.log == old(kv.log) && p.sent == old(p.sent)
    ensures var code, state := FormUrlEncoded.Get(query, "code"), FormUrlEncoded.Get(query, "state");
      !Env.Filled(FormUrlEncoded.Get(query, "error")) && !(Env.Filled(code) && Env.Filled(state)) ==>
        res == MissingCodeOrState && kv.log == old(kv.log) && p.sent == old(p.sent)
    ensures var code, state := FormUrlEncoded.Get(query, "code"), FormUrlEncoded.Get(query, "state");
      !Env.Filled(FormUrlEncoded.Get(query, "error")) && Env.Filled(code) && Env.Filled(state) ==>
        var rec := RedisHelpers.StoredState(kv.down, old(kv.entries), state.value, now);
        && (!Truthy(Some(rec)) ==>
              res == InvalidState && kv.log == old(kv.log) + [GetOp(RedisHelpers.OAuthStateKey(state.value))]
              && p.sent == old(p.sent))
        && (Truthy(Some(rec)) ==>
              Completed(kv, p, old(kv.entries), old(kv.log) + [GetOp(RedisHelpers.OAuthStateKey(state.value))],
                        old(p.sent), old(p.replies), cfg, code.value, state.value, rec, now, res))
  {
    var code := FormUrlEncoded.Get(query, "code");
    var state := FormUrlEncoded.Get(query, "state");
    var error := FormUrlEncoded.Get(query, "error");
    if Env.Filled(error) {
      return Refusal(400, Str(error.value));
    }
    if !Env.Filled(code) || !Env.Filled(state) {
      return MissingCodeOrState;
    }
    var rec := RedisHelpers.ReadOAuthState(kv, state.value, now);
    if !Truthy(Some(rec)) {
      return InvalidState;
    }
    res := Complete(kv, p, cfg, code.value, state.value, rec, now);
  }

  /** The `try` block: exchange, map, save under the athlete id, delete the state, return to the tool. */
  method Complete(kv: Store, p: Provider, cfg: Option<Env.Config>, code: string, state: string, rec: Json, now: int)
    returns (res: Response)
    modifies kv`entries, kv`log, p
    ensures Completed(kv, p, old(kv.entries), old(kv.log), old(p.sent), old(p.replies), cfg, code, state, rec, now, res)
  {
    var mapped := Exchange(p, cfg, code, now);
    if mapped.Throw? {
      return ExchangeFailed;
    }
    var saved := RedisHelpers.SaveTokens(kv, Get(mapped.value, "athlete_id"), mapped.value, None, cfg, now);
    if saved.Throw? {
      return ExchangeFailed;
    }
    var _ := RedisHelpers.DeleteOAuthState(kv, state, now);
    res := ToolReturn(rec);
  }

  /** `exchangeCodeForToken(code)` followed by `mapStravaTokenResponse`. */
  method Exchange(p: Provider, cfg: Option<Env.Config>, code: string, now: int) returns (m: Outcome<Json>)
    modifies p
    ensures cfg.None? ==> m.Throw? && p.sent == old(p.sent)
    ensures cfg.Some? ==>
      && m == Exchanged(Next(old(p.replies)), now)
      && p.sent == old(p.sent) + [TokenRequest(StravaClient.ExchangeForm(cfg.value, code))]
  {
    var tokenRes := StravaClient.ExchangeCodeForToken(p, cfg, code);
    match tokenRes {
      case Throw(e) => m := Throw(e);
      case Ok(body) => m := Tokens.MapTokenResponse(body, now);
    }
  }
}
