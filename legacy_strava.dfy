/**
 * api/_strava.js: the per-call refresh of the older store's record (60-second margin, old fields
 * kept when the provider omits them) and the guards of `stravaFetch`.
 */
module LegacyStrava {
  import opened Wrappers
  import opened JsonValue
  import opened Js
  import opened Kv
  import opened Remote
  import JsonText
  import LegacyEnv
  import LegacyStore

  const RefreshFailed: JsError := Error("strava_refresh_failed")
  const BadPath: JsError := Error("strava path must start with /")
  const NoTokens: JsError := Error("no_strava_tokens")

  /** The fields of the refreshed record: the provider's answer, with the old values as fallbacks. */
  function KeptFieldList(data: Json, tks: Json): seq<(string, Option<Json>)> {
    [("access_token", Get(data, "access_token")),
     ("refresh_token", Or(Get(data, "refresh_token"), Get(tks, "refresh_token"))),
     ("expires_at", Get(data, "expires_at")),
     ("scope", Or(Get(data, "scope"), Get(tks, "scope"))),
     ("athlete", Get(tks, "athlete"))]
  }

  /** `newTokens`. */
  function Refreshed(data: Json, tks: Json): Json {
    Record(KeptFieldList(data, tks))
  }

  /** The refreshed record takes the new access token and expiry, and always keeps the old athlete. */
  lemma RefreshedFields(data: Json, tks: Json)
    ensures var m := Refreshed(data, tks).fields;
      && Find(m, "access_token") == Get(data, "access_token")
      && Find(m, "expires_at") == Get(data, "expires_at")
      && Find(m, "athlete") == Get(tks, "athlete")
  {
    var ps := KeptFieldList(data, tks);
    assert DistinctNames(ps);
    RecordFind(ps, 0);
    RecordFind(ps, 2);
    RecordFind(ps, 4);
  }

  /** The refreshed record keeps the old refresh token and scope when the provider sends falsy ones. */
  lemma RefreshedFallbacks(data: Json, tks: Json)
    ensures var m := Refreshed(data, tks).fields;
      && Find(m, "refresh_token") == (if Truthy(Get(data, "refresh_token")) then Get(data, "refresh_token") else Get(tks, "refresh_token"))
      && Find(m, "scope") == (if Truthy(Get(data, "scope")) then Get(data, "scope") else Get(tks, "scope"))
  {
    var ps := KeptFieldList(data, tks);
    assert DistinctNames(ps);
    RecordFind(ps, 1);
    RecordFind(ps, 3);
  }

  /**
   * What the refresh makes of the provider's reply: the body is parsed first, a non-2xx answer
   * throws `strava_refresh_failed`, reading a field of a null body throws.
   */
  function RefreshReply(reply: Reply, tks: Json): (r: Outcome<Json>)
    ensures r.Ok? ==> reply.Reply? && Ok2xx(reply.status)
  {
    match Fetched(reply)
    case Throw(e) => Throw(e)
    case Ok(resp) => RefreshAnswer(resp, tks)
  }

  function RefreshAnswer(resp: Reply, tks: Json): (r: Outcome<Json>)
    requires resp.Reply?
    ensures r.Ok? ==> Ok2xx(resp.status)
  {
    match BodyJson(resp)
    case Throw(e) => Throw(e)
    case Ok(data) =>
      if !Ok2xx(resp.status) then Throw(RefreshFailed)
      else if data.Null? then Throw(TypeError("Cannot read properties of null (reading 'access_token')"))
      else Ok(Refreshed(data, tks))
  }

  /** The refresh request: the older store's form, sent even when the client id or secret is unset. */
  function RefreshRequest(env: LegacyEnv.Env, tks: Json): Request {
    TokenRequest(LegacyStore.RefreshForm(env, Get(tks, "refresh_token")))
  }

  /**
   * `refreshIfNeeded(sub, tks)`: the record itself, with no request and no write, while its expiry
   * is more than 60 seconds away; otherwise one refresh, and the refreshed record is saved before
   * it is returned. A failed refresh saves nothing.
   */
  method RefreshIfNeeded(kv: Store, p: Provider, env: LegacyEnv.Env, sub: Option<Json>, tks: Json, now: nat)
    returns (r: Outcome<Json>)
    modifies kv`entries, kv`log, p
    ensures LegacyStore.StillValid(tks, now / 1000) ==>
      r == Ok(tks) && p.sent == old(p.sent) && p.replies == old(p.replies) && kv.entries == old(kv.entries) && kv.log == old(kv.log)
    ensures !LegacyStore.StillValid(tks, now / 1000) && tks.Null? ==>
      r.Throw? && p.sent == old(p.sent) && p.replies == old(p.replies) && kv.entries == old(kv.entries) && kv.log == old(kv.log)
    ensures !LegacyStore.StillValid(tks, now / 1000) && !tks.Null? ==>
      && p.sent == old(p.sent) + [RefreshRequest(env, tks)]
      && p.replies == Rest(old(p.replies))
      && (RefreshReply(Next(old(p.replies)), tks).Throw? ==>
            r == RefreshReply(Next(old(p.replies)), tks) && kv.entries == old(kv.entries) && kv.log == old(kv.log))
      && (RefreshReply(Next(old(p.replies)), tks).Ok? && Truthy(sub) && !kv.down ==>
            && r == RefreshReply(Next(old(p.replies)), tks)
            && kv.log == old(kv.log) + [SetOp(LegacyStore.TokKey(sub))]
            && kv.entries == Written(old(kv.entries), LegacyStore.TokKey(sub),
                 JsonText.Serialize(RefreshReply(Next(old(p.replies)), tks).value), None, now))
      && (RefreshReply(Next(old(p.replies)), tks).Ok? && !(Truthy(sub) && !kv.down) ==>
            r.Throw? && kv.entries == old(kv.entries))
  {
    if LegacyStore.StillValid(tks, now / 1000) {
      return Ok(tks);
    }
    if tks.Null? {
      return Throw(TypeError("Cannot read properties of null (reading 'refresh_token')"));
    }
    var newTokens := RequestRefresh(p, env, tks);
    if newTokens.Throw? {
      return newTokens;
    }
    var saved := LegacyStore.SaveTokens(kv, sub, newTokens.value, now);
    match saved {
      case Throw(e) => r := Throw(e);
      case Ok(_) => r := newTokens;
    }
  }

  /** The refresh request and what comes of its reply. */
  method RequestRefresh(p: Provider, env: LegacyEnv.Env, tks: Json) returns (r: Outcome<Json>)
    modifies p
    ensures r == RefreshReply(Next(old(p.replies)), tks)
    ensures p.sent == old(p.sent) + [RefreshRequest(env, tks)]
    ensures p.replies == Rest(old(p.replies))
  {
    var resp := p.Fetch(RefreshRequest(env, tks));
    r := if resp.Throw? then Throw(resp.error) else RefreshAnswer(resp.value, tks);
  }

  /** `path.startsWith('/')`. */
  predicate Rooted(path: string) {
    |path| > 0 && path[0] == '/'
  }

  /** The API call: GET `https://www.strava.com/api/v3{path}` with the record's access token as bearer. */
  function ApiRequest(path: string, tks: Json): Request {
    Request("GET", ApiBase + path, [], Some(JsStringOf(Get(tks, "access_token"))))
  }

  /**
   * What `stravaFetch` makes of the API's reply: a body that does not parse reads as {}; a non-2xx
   * answer throws `strava_fetch_failed` carrying the status and that body.
   */
  function ApiReply(reply: Reply): (r: Outcome<Json>)
    ensures reply.Reply? && !Ok2xx(reply.status) ==>
      r.Throw? && r.error.message == "strava_fetch_failed" && r.error.status == Some(reply.status) && r.error.data.Some?
    ensures r.Ok? ==> reply.Reply? && Ok2xx(reply.status)
  {
    match Fetched(reply)
    case Throw(e) => Throw(e)
    case Ok(resp) =>
      var data := match JsonParse(resp.body) { case Ok(d) => d case Throw(_) => Obj([]) };
      if !Ok2xx(resp.status) then Throw(JsError("Error", "strava_fetch_failed", Some(resp.status), Some(data)))
      else Ok(data)
  }

  /** A failed call's error carries the parsed body, or {} for a body that is not JSON. */
  lemma ApiReplyBody(reply: Reply)
    requires reply.Reply? && !Ok2xx(reply.status)
    ensures ApiReply(reply).error.data == Some(if JsonParse(reply.body).Ok? then JsonParse(reply.body).value else Obj([]))
  {
  }

  /**
   * `stravaFetch(sub, path)` (GET, no extra headers): a path not starting with '/' is refused before
   * the store is read; a record without access token throws `no_strava_tokens` before any request;
   * a fresh record is used as is, an expiring one is refreshed first.
   */
  method StravaFetch(kv: Store, p: Provider, env: LegacyEnv.Env, sub: Option<Json>, path: string, now: nat)
    returns (r: Outcome<Json>)
    modifies kv`entries, kv`log, p
    ensures !Rooted(path) ==>
      r == Throw(BadPath) && kv.log == old(kv.log) && p.sent == old(p.sent) && kv.entries == old(kv.entries)
    ensures Rooted(path) ==> var stored := LegacyStore.StoredRecord(kv.down, old(kv.entries), sub, now);
      && (stored.Throw? ==> r == Throw(stored.error) && p.sent == old(p.sent))
      && (stored.Ok? && !Truthy(Get(stored.value, "access_token")) ==>
            r == Throw(NoTokens) && p.sent == old(p.sent) && kv.entries == old(kv.entries))
      && (stored.Ok? && Truthy(Get(stored.value, "access_token")) && LegacyStore.StillValid(stored.value, now / 1000) ==>
            && r == ApiReply(Next(old(p.replies)))
            && p.sent == old(p.sent) + [ApiRequest(path, stored.value)]
            && kv.entries == old(kv.entries))
      && (stored.Ok? && Truthy(Get(stored.value, "access_token")) && !LegacyStore.StillValid(stored.value, now / 1000) ==>
            var refreshed := RefreshReply(Next(old(p.replies)), stored.value);
            && (refreshed.Throw? ==>
                  r == refreshed && p.sent == old(p.sent) + [RefreshRequest(env, stored.value)] && kv.entries == old(kv.entries))
            && (refreshed.Ok? ==>
                  && r == ApiReply(Next(Rest(old(p.replies))))
                  && p.sent == old(p.sent) + [RefreshRequest(env, stored.value), ApiRequest(path, refreshed.value)]
                  && kv.entries == Written(old(kv.entries), LegacyStore.TokKey(sub), JsonText.Serialize(refreshed.value), None, now)))
  {
    if !Rooted(path) {
      return Throw(BadPath);
    }
    var tokens := LegacyStore.GetTokens(kv, sub, now);
    if tokens.Throw? {
      return Throw(tokens.error);
    }
    if !Truthy(Get(tokens.value, "access_token")) {
      return Throw(NoTokens);
    }
    r := FetchWith(kv, p, env, sub, tokens.value, path, now);
  }

  /** The call with a record that has an access token, for a subject whose record could be read. */
  method FetchWith(kv: Store, p: Provider, env: LegacyEnv.Env, sub: Option<Json>, tokens: Json, path: string, now: nat)
    returns (r: Outcome<Json>)
    requires Truthy(sub) && !kv.down
    modifies kv`entries, kv`log, p
    ensures LegacyStore.StillValid(tokens, now / 1000) ==>
      && r == ApiReply(Next(old(p.replies)))
      && p.sent == old(p.sent) + [ApiRequest(path, tokens)]
      && kv.entries == old(kv.entries)
    ensures !LegacyStore.StillValid(tokens, now / 1000) && !tokens.Null? ==>
      var refreshed := RefreshReply(Next(old(p.replies)), tokens);
      && (refreshed.Throw? ==>
            r == refreshed && p.sent == old(p.sent) + [RefreshRequest(env, tokens)] && kv.entries == old(kv.entries))
      && (refreshed.Ok? ==>
            && r == ApiReply(Next(Rest(old(p.replies))))
            && p.sent == old(p.sent) + [RefreshRequest(env, tokens), ApiRequest(path, refreshed.value)]
            && kv.entries == Written(old(kv.entries), LegacyStore.TokKey(sub), JsonText.Serialize(refreshed.value), None, now))
  {
    var tks := RefreshIfNeeded(kv, p, env, sub, tokens, now);
    if tks.Throw? {
      return Throw(tks.error);
    }
    r := CallApi(p, path, tks.value);
  }

  /** The API call itself and what comes of its reply. */
  method CallApi(p: Provider, path: string, tks: Json) returns (r: Outcome<Json>)
    modifies p
    ensures r == ApiReply(Next(old(p.replies)))
    ensures p.sent == old(p.sent) + [ApiRequest(path, tks)]
    ensures p.replies == Rest(old(p.replies))
  {
    var resp := p.Fetch(ApiRequest(path, tks));
    r := if resp.Throw? then Throw(resp.error) else ApiReply(resp.value);
  }
}
