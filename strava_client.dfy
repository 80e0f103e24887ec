/**
 * lib/strava.ts: the authorize URL and the two calls to the token endpoint, with their error
 * contract (a non-2xx answer throws, a 2xx answer yields its parsed body).
 */
module StravaClient {
  import opened Wrappers
  import opened JsonValue
  import opened Js
  import opened Remote
  import Env
  import Decimal
  import FormUrlEncoded
  import WhatwgUrl

  /** `https://www.strava.com/oauth/authorize`, written by its parts. */
  const AuthorizeEndpoint: string := "https" + "://" + "www.strava.com" + "/oauth/authorize"

  /** The URL `https://www.strava.com/oauth/authorize?` followed by the given query. */
  function AuthorizeTarget(query: string): WhatwgUrl.Url {
    WhatwgUrl.Url("https", "", "", "www.strava.com", None, "/oauth/authorize", Some(query), None)
  }

  lemma HttpsScheme()
    ensures WhatwgUrl.ValidScheme("https") && WhatwgUrl.IsLower("https") && WhatwgUrl.IsSpecial("https")
  {
  }

  lemma StravaHost()
    ensures WhatwgUrl.ValidHost("https", "www.strava.com")
  {
    var h := "www.strava.com";
    assert WhatwgUrl.PlainHostChars(h);
    WhatwgUrl.PlainHost(h);
    WhatwgUrl.PlainHostName(h);
  }

  lemma AuthorizePath()
    ensures WhatwgUrl.Clear(WhatwgUrl.PathSet, "/oauth/authorize") && !WhatwgUrl.HasDotSegment("/oauth/authorize")
    ensures WhatwgUrl.NoneOf("/oauth/authorize", {'\\'})
  {
    assert WhatwgUrl.PlainPathChars("/oauth/authorize");
    WhatwgUrl.PlainPath("/oauth/authorize");
  }

  /** Any query with nothing left to encode after the authorize endpoint parses to that endpoint with that query. */
  lemma AuthorizeTargetValid(query: string)
    requires WhatwgUrl.Clear(WhatwgUrl.SpecialQuerySet, query)
    ensures WhatwgUrl.Valid(AuthorizeTarget(query))
  {
    var u := AuthorizeTarget(query);
    HttpsScheme();
    StravaHost();
    AuthorizePath();
    assert WhatwgUrl.QuerySetOf(u.scheme) == WhatwgUrl.SpecialQuerySet;
    assert WhatwgUrl.Clear(WhatwgUrl.UserinfoSet, u.username);
  }

  lemma AuthorizeTargetHref(query: string)
    ensures WhatwgUrl.Href(AuthorizeTarget(query)) == AuthorizeEndpoint + "?" + query
  {
    WhatwgUrl.HrefPlain(AuthorizeTarget(query));
  }

  lemma AuthorizeTargetParses(query: string)
    requires WhatwgUrl.Clear(WhatwgUrl.SpecialQuerySet, query)
    ensures WhatwgUrl.Parse(AuthorizeEndpoint + "?" + query) == Some(AuthorizeTarget(query))
  {
    AuthorizeTargetValid(query);
    AuthorizeTargetHref(query);
    WhatwgUrl.ParseHref(AuthorizeTarget(query));
  }

  /** The parameters of the authorize URL, in this order. */
  function AuthorizeParams(c: Env.Config, state: string): FormUrlEncoded.Pairs {
    [("client_id", c.clientId), ("response_type", "code"), ("redirect_uri", Env.RedirectUri(c)),
     ("approval_prompt", "auto"), ("scope", c.scope), ("state", state)]
  }

  /** `buildAuthorizeUrl(state)`. */
  function BuildAuthorizeUrl(c: Env.Config, state: string): string {
    AuthorizeEndpoint + "?" + FormUrlEncoded.Serialize(AuthorizeParams(c, state))
  }

  lemma AuthorizeParamsGet(c: Env.Config, state: string)
    ensures FormUrlEncoded.Get(AuthorizeParams(c, state), "redirect_uri") == Some(Env.RedirectUri(c))
    ensures FormUrlEncoded.Get(AuthorizeParams(c, state), "state") == Some(state)
  {
    var ps := AuthorizeParams(c, state);
    FormUrlEncoded.GetFirst(ps, "redirect_uri", 2);
    FormUrlEncoded.GetFirst(ps, "state", 5);
  }

  /** Serialized parameters need no further encoding and never contain '#', so they all land in the query of the URL. */
  lemma SerializedQuery(ps: FormUrlEncoded.Pairs)
    ensures WhatwgUrl.Clear(WhatwgUrl.SpecialQuerySet, FormUrlEncoded.Serialize(ps))
  {
    WhatwgUrl.SerializeClear(ps);
  }

  /**
   * The authorize URL parses to the authorize endpoint, and its query reads back as the six
   * parameters in order; in particular `redirect_uri` is always the configured redirect URI and
   * `state` is the given state.
   */
  lemma AuthorizeUrlReadsBack(c: Env.Config, state: string)
    ensures var u := WhatwgUrl.Parse(BuildAuthorizeUrl(c, state));
      && u.Some? && u.value.host == "www.strava.com" && u.value.path == "/oauth/authorize"
      && WhatwgUrl.SearchParams(u.value) == AuthorizeParams(c, state)
      && FormUrlEncoded.Get(WhatwgUrl.SearchParams(u.value), "redirect_uri") == Some(Env.RedirectUri(c))
      && FormUrlEncoded.Get(WhatwgUrl.SearchParams(u.value), "state") == Some(state)
  {
    var ps := AuthorizeParams(c, state);
    var q := FormUrlEncoded.Serialize(ps);
    SerializedQuery(ps);
    AuthorizeTargetParses(q);
    FormUrlEncoded.ParsePiecesSerialize(ps);
    AuthorizeParamsGet(c, state);
  }

  /** Different states give different URLs: the state is carried without loss. */
  lemma AuthorizeUrlInjective(c: Env.Config, s1: string, s2: string)
    requires BuildAuthorizeUrl(c, s1) == BuildAuthorizeUrl(c, s2)
    ensures s1 == s2
  {
    AuthorizeUrlReadsBack(c, s1);
    AuthorizeUrlReadsBack(c, s2);
  }

  // ---------------------------------------------------------------- the token endpoint

  function ExchangeForm(c: Env.Config, code: string): FormUrlEncoded.Pairs {
    [("client_id", c.clientId), ("client_secret", c.clientSecret), ("code", code), ("grant_type", "authorization_code")]
  }

  function RefreshForm(c: Env.Config, refreshToken: string): FormUrlEncoded.Pairs {
    [("client_id", c.clientId), ("client_secret", c.clientSecret), ("grant_type", "refresh_token"), ("refresh_token", refreshToken)]
  }

  /** What a call to the token endpoint yields for a reply: the parsed body of a 2xx answer, otherwise a throw. */
  function TokenResult(reply: Reply, failure: string): (r: Outcome<Json>)
    ensures r.Ok? <==> reply.Reply? && Ok2xx(reply.status) && JsonText.Parse(reply.body).Some?
    ensures r.Ok? ==> r.value == JsonText.Parse(reply.body).value
    ensures reply.Reply? && !Ok2xx(reply.status) ==> r == Throw(Error(failure + ": " + Decimal.IntToString(reply.status)))
  {
    match Fetched(reply)
    case Throw(e) => Throw(e)
    case Ok(res) =>
      if !Ok2xx(res.status) then Throw(Error(failure + ": " + Decimal.IntToString(res.status)))
      else BodyJson(res)
  }

  const ExchangeFailed: string := "Strava token exchange failed"
  const RefreshFailed: string := "Strava token refresh failed"

  /** `exchangeCodeForToken(code)`: reads the configuration first, then posts the authorization code. */
  method ExchangeCodeForToken(p: Provider, cfg: Option<Env.Config>, code: string) returns (r: Outcome<Json>)
    modifies p
    ensures cfg.None? ==> r == Throw(Env.InvalidConfiguration) && p.sent == old(p.sent) && p.replies == old(p.replies)
    ensures cfg.Some? ==>
      && p.sent == old(p.sent) + [TokenRequest(ExchangeForm(cfg.value, code))]
      && p.replies == Rest(old(p.replies))
      && r == TokenResult(Next(old(p.replies)), ExchangeFailed)
  {
    if cfg.None? {
      return Throw(Env.InvalidConfiguration);
    }
    r := PostToken(p, ExchangeForm(cfg.value, code), ExchangeFailed);
  }

  /** `refreshAccessToken(refreshToken)`: reads the configuration first, then posts the refresh token. */
  method RefreshAccessToken(p: Provider, cfg: Option<Env.Config>, refreshToken: string) returns (r: Outcome<Json>)
    modifies p
    ensures cfg.None? ==> r == Throw(Env.InvalidConfiguration) && p.sent == old(p.sent) && p.replies == old(p.replies)
    ensures cfg.Some? ==>
      && p.sent == old(p.sent) + [TokenRequest(RefreshForm(cfg.value, refreshToken))]
      && p.replies == Rest(old(p.replies))
      && r == TokenResult(Next(old(p.replies)), RefreshFailed)
  {
    if cfg.None? {
      return Throw(Env.InvalidConfiguration);
    }
    r := PostToken(p, RefreshForm(cfg.value, refreshToken), RefreshFailed);
  }

  method PostToken(p: Provider, form: FormUrlEncoded.Pairs, failure: string) returns (r: Outcome<Json>)
    modifies p
    ensures p.sent == old(p.sent) + [TokenRequest(form)]
    ensures p.replies == Rest(old(p.replies))
    ensures r == TokenResult(Next(old(p.replies)), failure)
  {
    var res := p.Fetch(TokenRequest(form));
    if res.Throw? {
      return Throw(res.error);
    }
    if !Ok2xx(res.value.status) {
      return Throw(Error(failure + ": " + Decimal.IntToString(res.value.status)));
    }
    r := BodyJson(res.value);
  }
}
