/**
 * The authorization proxy for the assistant builder (app/api/oauth/openai-authorize/route.ts): it
 * requires the assistant's `redirect_uri`, reuses the caller's `state` when there is one (generating
 * one otherwise), records `{user_id, tool_redirect_uri, createdAt}` under that state, and redirects to
 * the provider's authorize page with the assistant's own redirect URI and the same state.
 */
module OpenAiAuthorize {
  import opened Wrappers
  import opened JsonValue
  import opened Js
  import opened Kv
  import Env
  import JsonText
  import FormUrlEncoded
  import WhatwgUrl
  import StravaClient
  import RedisHelpers

  const MissingRedirect: Response :=
    JsonResponse(400, Record([("ok", Some(Bool(false))), ("error", Some(Str("missing_redirect_uri")))]))

  /** `url.searchParams.get(name) || fallback`. */
  function Or(v: Option<string>, fallback: string): string {
    if Env.Filled(v) then v.value else fallback
  }

  /** The state forwarded to the provider: the caller's when non-empty, otherwise the generated one. */
  function ChosenState(query: FormUrlEncoded.Pairs, generated: string): string {
    Or(FormUrlEncoded.Get(query, "state"), generated)
  }

  /** The record saved under the state. */
  function StateRecord(query: FormUrlEncoded.Pairs, redirect: string, now: int): Json {
    var userId := FormUrlEncoded.Get(query, "user_id");
    Record([("user_id", Some(if Env.Filled(userId) then Str(userId.value) else Null)),
            ("tool_redirect_uri", Some(Str(redirect))), ("createdAt", Some(Num(now)))])
  }

  /** The authorize parameters, in this order; the redirect URI is the assistant's own. */
  function Params(c: Env.Config, redirect: string, scope: string, state: string): FormUrlEncoded.Pairs {
    [("client_id", c.clientId), ("response_type", "code"), ("redirect_uri", redirect),
     ("approval_prompt", "auto"), ("scope", scope), ("state", state)]
  }

  function AuthorizeUrl(c: Env.Config, redirect: string, scope: string, state: string): string {
    StravaClient.AuthorizeEndpoint + "?" + FormUrlEncoded.Serialize(Params(c, redirect, scope, state))
  }

  /**
   * The provider receives, read back from the URL, exactly the six parameters: the assistant's
   * redirect URI and the forwarded state among them.
   */
  lemma AuthorizeUrlReadsBack(c: Env.Config, redirect: string, scope: string, state: string)
    ensures var u := WhatwgUrl.Parse(AuthorizeUrl(c, redirect, scope, state));
      && u.Some? && u.value.host == "www.strava.com" && u.value.path == "/oauth/authorize"
      && WhatwgUrl.SearchParams(u.value) == Params(c, redirect, scope, state)
      && FormUrlEncoded.Get(WhatwgUrl.SearchParams(u.value), "redirect_uri") == Some(redirect)
      && FormUrlEncoded.Get(WhatwgUrl.SearchParams(u.value), "state") == Some(state)
  {
    var ps := Params(c, redirect, scope, state);
    EndpointQuery(ps);
    ParamsGet(c, redirect, scope, state);
  }

  lemma EndpointQuery(ps: FormUrlEncoded.Pairs)
    ensures var u := WhatwgUrl.Parse(StravaClient.AuthorizeEndpoint + "?" + FormUrlEncoded.Serialize(ps));
      && u.Some? && u.value.host == "www.strava.com" && u.value.path == "/oauth/authorize"
      && WhatwgUrl.SearchParams(u.value) == ps
  {
    StravaClient.SerializedQuery(ps);
    StravaClient.AuthorizeTargetParses(FormUrlEncoded.Serialize(ps));
    FormUrlEncoded.ParsePiecesSerialize(ps);
  }

  lemma ParamsGet(c: Env.Config, redirect: string, scope: string, state: string)
    ensures FormUrlEncoded.Get(Params(c, redirect, scope, state), "redirect_uri") == Some(redirect)
    ensures FormUrlEncoded.Get(Params(c, redirect, scope, state), "state") == Some(state)
  {
    var ps := Params(c, redirect, scope, state);
    FormUrlEncoded.GetFirst(ps, "redirect_uri", 2);
    FormUrlEncoded.GetFirst(ps, "state", 5);
  }

  /** A caller's state is reused as it is; only a missing or empty one is replaced. */
  lemma StateReused(query: FormUrlEncoded.Pairs, generated: string)
    ensures Env.Filled(FormUrlEncoded.Get(query, "state")) ==> ChosenState(query, generated) == FormUrlEncoded.Get(query, "state").value
    ensures !Env.Filled(FormUrlEncoded.Get(query, "state")) ==> ChosenState(query, generated) == generated
  {
  }

  /**
   * `GET /api/oauth/openai-authorize` with the request URL's query parameters; `generated` is the
   * random state the handler would make. The configuration is consulted for the default scope before
   * anything else, and throws (a 500) when it is invalid.
   */
  method Handle(kv: Store, cfg: Option<Env.Config>, query: FormUrlEncoded.Pairs, generated: string, now: int)
    returns (res: Response)
    modifies kv`entries, kv`log
    ensures !Env.Filled(FormUrlEncoded.Get(query, "scope")) && cfg.None? ==>
      res == Unhandled && kv.log == old(kv.log) && kv.entries == old(kv.entries)
    ensures (Env.Filled(FormUrlEncoded.Get(query, "scope")) || cfg.Some?) && !Env.Filled(FormUrlEncoded.Get(query, "redirect_uri")) ==>
      res == MissingRedirect && kv.log == old(kv.log) && kv.entries == old(kv.entries)
    ensures (Env.Filled(FormUrlEncoded.Get(query, "scope")) || cfg.Some?) && Env.Filled(FormUrlEncoded.Get(query, "redirect_uri")) ==>
      var redirect := FormUrlEncoded.Get(query, "redirect_uri").value;
      var state := ChosenState(query, generated);
      && (cfg.None? ==> res == Unhandled && kv.log == old(kv.log) && kv.entries == old(kv.entries))
      && (cfg.Some? ==>
            var scope := Or(FormUrlEncoded.Get(query, "scope"), cfg.value.scope);
            && res == Redirect(AuthorizeUrl(cfg.value, redirect, scope, state))
            && kv.log == old(kv.log) + [SetOp(RedisHelpers.OAuthStateKey(state))]
            && kv.entries == if kv.down then old(kv.entries)
                             else Written(old(kv.entries), RedisHelpers.OAuthStateKey(state),
                                          JsonText.Serialize(StateRecord(query, redirect, now)),
                                          RedisHelpers.Expiry(Env.DefaultTtlSeconds(cfg.value)), now))
  {
    var redirect := FormUrlEncoded.Get(query, "redirect_uri");
    var scopeParam := FormUrlEncoded.Get(query, "scope");
    if !Env.Filled(scopeParam) && cfg.None? {
      return Unhandled;
    }
    var scope := if Env.Filled(scopeParam) then scopeParam.value else cfg.value.scope;
    if !Env.Filled(redirect) {
      return MissingRedirect;
    }
    var state := ChosenState(query, generated);
    var saved := RedisHelpers.SaveOAuthState(kv, state, StateRecord(query, redirect.value, now), None, cfg, now);
    if saved.Throw? || cfg.None? {
      return Unhandled;
    }
    res := Redirect(AuthorizeUrl(cfg.value, redirect.value, scope, state));
  }
}
