/**
 * api/_store.js: the older token store under `strava:tokens:{sub}` (no TTL, errors propagate), its
 * read-merge-write update, and its own refresh with a 60-second margin.
 */
module LegacyStore {
  import opened Wrappers
  import opened JsonValue
  import opened Js
  import opened Kv
  import opened Remote
  import JsonText
  import JsonTextRoundTrip
  import FormUrlEncoded
  import RedisHelpers
  import LegacyEnv

  const TokPrefix: string := "strava:tokens:"

  /** `TOK_KEY(sub)`. */
  function TokKey(sub: Option<Json>): string {
    TokPrefix + JsStringOf(sub)
  }

  /** The older namespace never meets the keys of lib/redis.ts. */
  lemma TokKeyApart(sub: Option<Json>, state: string, athleteId: Option<Json>, userId: string)
    ensures TokKey(sub) != RedisHelpers.TokensKey(athleteId)
    ensures TokKey(sub) != RedisHelpers.OAuthStateKey(state)
    ensures TokKey(sub) != RedisHelpers.AthleteIndexKey(userId)
  {
    assert TokKey(sub)[0] == 's' && TokKey(sub)[2] == 'r';
    assert RedisHelpers.TokensKey(athleteId)[0] == 't';
    assert RedisHelpers.OAuthStateKey(state)[2] == 'a';
    assert RedisHelpers.AthleteIndexKey(userId)[0] == 'a';
  }

  const MissingSub: JsError := Error("saveTokens: missing sub")

  // ---------------------------------------------------------------- save / get / update

  /** `saveTokens(sub, payload)`: throws on a falsy sub before writing; otherwise stores the JSON text with no TTL. */
  method SaveTokens(kv: Store, sub: Option<Json>, payload: Json, now: int) returns (r: Outcome<bool>)
    modifies kv`entries, kv`log
    ensures !Truthy(sub) ==> r == Throw(MissingSub) && kv.entries == old(kv.entries) && kv.log == old(kv.log)
    ensures Truthy(sub) ==>
      && kv.log == old(kv.log) + [SetOp(TokKey(sub))]
      && r == (if kv.down then Throw(Unavailable) else Ok(true))
      && kv.entries == if kv.down then old(kv.entries) else Written(old(kv.entries), TokKey(sub), JsonText.Serialize(payload), None, now)
  {
    if !Truthy(sub) {
      return Throw(MissingSub);
    }
    var written := kv.Set(TokKey(sub), JsonText.Serialize(payload), None, now);
    if written.Throw? {
      return Throw(written.error);
    }
    r := Ok(true);
  }

  /**
   * `typeof raw === 'string' ? JSON.parse(raw) : raw`, with a missing key read as null: stored text and a
   * string the client hands back decoded are both JSON-parsed; any other document passes through.
   */
  function Decoded(raw: Option<Value>): (r: Outcome<Json>)
    ensures raw == None ==> r == Ok(Null)
    ensures raw.Some? && raw.value.Text? ==> r == JsonParse(raw.value.s)
    ensures raw.Some? && raw.value.Doc? && raw.value.j.Str? ==> r == JsonParse(raw.value.j.s)
    ensures raw.Some? && raw.value.Doc? && !raw.value.j.Str? ==> r == Ok(raw.value.j)
  {
    match raw
    case None => Ok(Null)
    case Some(Doc(Str(s))) => JsonParse(s)
    case Some(Doc(j)) => Ok(j)
    case Some(Text(s)) => JsonParse(s)
  }

  /** A string document decodes as the same text stored as text would: `typeof raw` is 'string' either way. */
  lemma StringDocumentDecoded(entries: map<string, Entry>, sub: Option<Json>, s: string, now: int, later: int)
    requires Truthy(sub)
    ensures StoredRecord(false, entries[TokKey(sub) := Entry(Doc(Str(s)), None)], sub, later) ==
            StoredRecord(false, Written(entries, TokKey(sub), s, None, now), sub, later)
  {
  }

  /** What `getTokens(sub)` yields against these entries. */
  function StoredRecord(down: bool, entries: map<string, Entry>, sub: Option<Json>, now: int): Outcome<Json> {
    if !Truthy(sub) then Ok(Null)
    else if down then Throw(Unavailable)
    else Decoded(Lookup(entries, TokKey(sub), now))
  }

  /** What `saveTokens` wrote reads back through `getTokens`, for as long as the entry exists (it has no TTL). */
  lemma SavedRecordReadBack(entries: map<string, Entry>, sub: Option<Json>, j: Json, now: int, later: int)
    requires Truthy(sub) && WellFormed(j)
    ensures StoredRecord(false, Written(entries, TokKey(sub), JsonText.Serialize(j), None, now), sub, later) == Ok(j)
  {
    JsonTextRoundTrip.SerializeParse(j);
  }

  /** `getTokens(sub)`: null for a falsy sub without reading the store; stored text is decoded, a document passes through. */
  method GetTokens(kv: Store, sub: Option<Json>, now: int) returns (r: Outcome<Json>)
    modifies kv`log
    ensures r == StoredRecord(kv.down, kv.entries, sub, now)
    ensures kv.log == old(kv.log) + if Truthy(sub) then [GetOp(TokKey(sub))] else []
  {
    if !Truthy(sub) {
      return Ok(Null);
    }
    var raw := kv.Get(TokKey(sub), now);
    if raw.Throw? {
      return Throw(raw.error);
    }
    r := Decoded(raw.value);
  }

  /** `{ ...(curr || {}), ...updates }`. */
  function Merged(curr: Json, updates: Option<Json>): Json {
    Obj(Spread(OwnFields(Or(Some(curr), Some(Obj([])))), OwnFields(updates)))
  }

  /** In the merge, `updates` wins on shared keys and every other key keeps its current value. */
  lemma MergedFind(curr: Json, updates: Option<Json>, k: string)
    requires DistinctKeys(OwnFields(updates))
    ensures Find(Merged(curr, updates).fields, k) ==
      if k in Keys(OwnFields(updates)) then Find(OwnFields(updates), k) else Find(OwnFields(Some(curr)), k)
  {
    SpreadFind(OwnFields(Or(Some(curr), Some(Obj([])))), OwnFields(updates), k);
  }

  /** `updateTokens(sub, updates)`: reads, merges, saves and returns the merge; any failure propagates. */
  method UpdateTokens(kv: Store, sub: Option<Json>, updates: Option<Json>, now: int) returns (r: Outcome<Json>)
    modifies kv`entries, kv`log
    ensures var curr := StoredRecord(kv.down, old(kv.entries), sub, now);
      && (curr.Throw? ==> r == curr && kv.entries == old(kv.entries))
      && (curr.Ok? && !Truthy(sub) ==> r == Throw(MissingSub) && kv.entries == old(kv.entries))
      && (curr.Ok? && Truthy(sub) ==>
            && r == Ok(Merged(curr.value, updates))
            && kv.log == old(kv.log) + [GetOp(TokKey(sub)), SetOp(TokKey(sub))]
            && kv.entries == Written(old(kv.entries), TokKey(sub), JsonText.Serialize(Merged(curr.value, updates)), None, now))
  {
    var curr := GetTokens(kv, sub, now);
    if curr.Throw? {
      return curr;
    }
    var next := Merged(curr.value, updates);
    var saved := SaveTokens(kv, sub, next, now);
    if saved.Throw? {
      return Throw(saved.error);
    }
    r := Ok(next);
  }

  // ---------------------------------------------------------------- refresh

  const MissingClient: JsError := Error("Missing STRAVA_CLIENT_ID/SECRET")

  predicate Configured(env: LegacyEnv.Env) {
    LegacyEnv.Present(env.clientId) && LegacyEnv.Present(env.clientSecret)
  }

  /** The refresh form: client_id, client_secret, grant_type=refresh_token and the token as text. */
  function RefreshForm(env: LegacyEnv.Env, refreshToken: Option<Json>): FormUrlEncoded.Pairs {
    [("client_id", LegacyEnv.TextOf(env.clientId)),
     ("client_secret", LegacyEnv.TextOf(env.clientSecret)),
     ("grant_type", "refresh_token"),
     ("refresh_token", JsStringOf(refreshToken))]
  }

  /** The five fields `refreshTokens` returns from the provider's answer. */
  function RefreshedFields(data: Json): seq<(string, Option<Json>)> {
    [("access_token", Get(data, "access_token")),
     ("refresh_token", Get(data, "refresh_token")),
     ("expires_at", Get(data, "expires_at")),
     ("scope", Get(data, "scope")),
     ("athlete", Get(data, "athlete"))]
  }

  /**
   * What `refreshTokens` makes of the provider's reply: the body is parsed before the status is
   * looked at; a non-2xx answer throws "Strava refresh failed: " with the body's message or the
   * status text; destructuring a null body throws.
   */
  function RefreshReply(reply: Reply): (r: Outcome<Json>)
    ensures r.Ok? ==> reply.Reply? && Ok2xx(reply.status)
  {
    match Fetched(reply)
    case Throw(e) => Throw(e)
    case Ok(resp) =>
      match BodyJson(resp)
      case Throw(e) => Throw(e)
      case Ok(data) =>
        if !Ok2xx(resp.status) then
          Throw(Error("Strava refresh failed: " + JsStringOf(Or(Get(data, "message"), Some(Str(resp.statusText))))))
        else if data.Null? then Throw(TypeError("Cannot destructure 'data' as it is null."))
        else Ok(Record(RefreshedFields(data)))
  }

  /** `refreshTokens(refresh_token)`: a missing client id or secret throws before anything is sent. */
  function RefreshOutcome(env: LegacyEnv.Env, reply: Reply): Outcome<Json> {
    if !Configured(env) then Throw(MissingClient) else RefreshReply(reply)
  }

  function RefreshRequests(env: LegacyEnv.Env, refreshToken: Option<Json>): seq<Request> {
    if Configured(env) then [TokenRequest(RefreshForm(env, refreshToken))] else []
  }

  method RefreshTokens(p: Provider, env: LegacyEnv.Env, refreshToken: Option<Json>) returns (r: Outcome<Json>)
    modifies p
    ensures r == RefreshOutcome(env, Next(old(p.replies)))
    ensures p.sent == old(p.sent) + RefreshRequests(env, refreshToken)
    ensures p.replies == if Configured(env) then Rest(old(p.replies)) else old(p.replies)
  {
    if !Configured(env) {
      return Throw(MissingClient);
    }
    var resp := p.Fetch(TokenRequest(RefreshForm(env, refreshToken)));
    if resp.Throw? {
      return Throw(resp.error);
    }
    var data := BodyJson(resp.value);
    if data.Throw? {
      return Throw(data.error);
    }
    if !Ok2xx(resp.value.status) {
      return Throw(Error("Strava refresh failed: " + JsStringOf(Or(Get(data.value, "message"), Some(Str(resp.value.statusText))))));
    }
    if data.value.Null? {
      return Throw(TypeError("Cannot destructure 'data' as it is null."));
    }
    r := Ok(Record(RefreshedFields(data.value)));
  }

  /** A refresh the provider refuses throws, whatever the body says. */
  lemma RefusedRefresh(env: LegacyEnv.Env, reply: Reply)
    requires reply.NetworkFailure? || !Ok2xx(reply.status)
    ensures RefreshOutcome(env, reply).Throw?
  {
  }

  // ---------------------------------------------------------------- the resolver

  /**
   * `tok.expires_at && tok.expires_at - 60 > now`: a set expiry more than 60 seconds away (the same
   * test as `Number(tks.expires_at) > now + 60` in api/_strava.js).
   */
  predicate StillValid(tok: Json, nowSec: int) {
    var e := Get(tok, "expires_at");
    Truthy(e) && match ToNumber(e) { case NaN => false case Int(x) => x - 60 > nowSec }
  }

  /** The record saved after a refresh: the new tokens, the old athlete when the answer has none. */
  function Renewed(refreshed: Json, tok: Json): Json {
    Record(RenewedFieldList(refreshed, tok))
  }

  function RenewedFieldList(refreshed: Json, tok: Json): seq<(string, Option<Json>)> {
    [("access_token", Get(refreshed, "access_token")),
     ("refresh_token", Get(refreshed, "refresh_token")),
     ("expires_at", Get(refreshed, "expires_at")),
     ("scope", Get(refreshed, "scope")),
     ("athlete", Or(Get(refreshed, "athlete"), Get(tok, "athlete")))]
  }

  /** `refreshTokens` copies the five fields of the provider's answer. */
  lemma RefreshedFieldsFind(data: Json)
    ensures var m := Record(RefreshedFields(data)).fields;
      && Find(m, "access_token") == Get(data, "access_token")
      && Find(m, "refresh_token") == Get(data, "refresh_token")
      && Find(m, "expires_at") == Get(data, "expires_at")
      && Find(m, "scope") == Get(data, "scope")
      && Find(m, "athlete") == Get(data, "athlete")
  {
    var ps := RefreshedFields(data);
    assert DistinctNames(ps);
    RecordFind(ps, 0);
    RecordFind(ps, 1);
    RecordFind(ps, 2);
    RecordFind(ps, 3);
    RecordFind(ps, 4);
  }

  /** No other property of the answer is copied. */
  lemma RefreshedFieldsOnly(data: Json, k: string)
    requires k !in {"access_token", "refresh_token", "expires_at", "scope", "athlete"}
    ensures Find(Record(RefreshedFields(data)).fields, k) == None
  {
    assert k !in Names(RefreshedFields(data));
    RecordOmits(RefreshedFields(data), k);
  }

  /**
   * The saved record carries the four token fields of the refresh answer and keeps the old athlete
   * exactly when the answer has a falsy one.
   */
  lemma RenewedFields(refreshed: Json, tok: Json)
    ensures var m := Renewed(refreshed, tok).fields;
      && Find(m, "access_token") == Get(refreshed, "access_token")
      && Find(m, "refresh_token") == Get(refreshed, "refresh_token")
      && Find(m, "expires_at") == Get(refreshed, "expires_at")
      && Find(m, "scope") == Get(refreshed, "scope")
      && Find(m, "athlete") == (if Truthy(Get(refreshed, "athlete")) then Get(refreshed, "athlete") else Get(tok, "athlete"))
  {
    var qs := RenewedFieldList(refreshed, tok);
    assert DistinctNames(qs);
    RecordFind(qs, 0);
    RecordFind(qs, 1);
    RecordFind(qs, 2);
    RecordFind(qs, 3);
    RecordFind(qs, 4);
  }

  /** The saved record has no other property. */
  lemma RenewedOnly(refreshed: Json, tok: Json, k: string)
    requires k !in {"access_token", "refresh_token", "expires_at", "scope", "athlete"}
    ensures Find(Renewed(refreshed, tok).fields, k) == None
  {
    assert k !in Names(RenewedFieldList(refreshed, tok));
    RecordOmits(RenewedFieldList(refreshed, tok), k);
  }

  /** Whether `getValidAccessToken(sub)` goes to the provider: the record has an access token that is not still valid. */
  predicate NeedsRefresh(down: bool, entries: map<string, Entry>, sub: Option<Json>, now: nat) {
    var stored := StoredRecord(down, entries, sub, now);
    stored.Ok? && Truthy(Get(stored.value, "access_token")) && !StillValid(stored.value, now / 1000)
  }

  /** What `getValidAccessToken(sub)` resolves to, given the store and the provider's next answer. */
  function Resolved(down: bool, entries: map<string, Entry>, env: LegacyEnv.Env, sub: Option<Json>, now: nat,
                    replies: seq<Reply>): Outcome<Option<Json>>
  {
    var stored := StoredRecord(down, entries, sub, now);
    if stored.Throw? then Throw(stored.error)
    else if !Truthy(Get(stored.value, "access_token")) then Ok(Some(Null))
    else if StillValid(stored.value, now / 1000) then Ok(Get(stored.value, "access_token"))
    else match RefreshOutcome(env, Next(replies))
      case Throw(e) => Throw(e)
      case Ok(refreshed) => Ok(Get(refreshed, "access_token"))
  }

  /** The requests `getValidAccessToken(sub)` sends. */
  function ResolverSent(down: bool, entries: map<string, Entry>, env: LegacyEnv.Env, sub: Option<Json>, now: nat): seq<Request> {
    if NeedsRefresh(down, entries, sub, now)
    then RefreshRequests(env, Get(StoredRecord(down, entries, sub, now).value, "refresh_token"))
    else []
  }

  /** The provider's answers left after `getValidAccessToken(sub)`. */
  function RepliesLeft(down: bool, entries: map<string, Entry>, env: LegacyEnv.Env, sub: Option<Json>, now: nat,
                       replies: seq<Reply>): seq<Reply> {
    if NeedsRefresh(down, entries, sub, now) && Configured(env) then Rest(replies) else replies
  }

  /**
   * `getValidAccessToken(sub)`: null when the record has no access token; the stored token while
   * its expiry is more than 60 seconds away; otherwise refresh, save the renewed record and return
   * the new access token. Every failure propagates, and a failed refresh saves nothing.
   */
  method GetValidAccessToken(kv: Store, p: Provider, env: LegacyEnv.Env, sub: Option<Json>, now: nat)
    returns (r: Outcome<Option<Json>>)
    modifies kv`entries, kv`log, p
    ensures r == Resolved(kv.down, old(kv.entries), env, sub, now, old(p.replies))
    ensures p.sent == old(p.sent) + ResolverSent(kv.down, old(kv.entries), env, sub, now)
    ensures p.replies == RepliesLeft(kv.down, old(kv.entries), env, sub, now, old(p.replies))
    ensures var stored := StoredRecord(kv.down, old(kv.entries), sub, now);
      && (stored.Throw? ==> r == Throw(stored.error) && p.sent == old(p.sent) && kv.entries == old(kv.entries))
      && (stored.Ok? && !Truthy(Get(stored.value, "access_token")) ==>
            r == Ok(Some(Null)) && p.sent == old(p.sent) && p.replies == old(p.replies) && kv.entries == old(kv.entries))
      && (stored.Ok? && Truthy(Get(stored.value, "access_token")) && StillValid(stored.value, now / 1000) ==>
            r == Ok(Get(stored.value, "access_token")) && p.sent == old(p.sent) && p.replies == old(p.replies) && kv.entries == old(kv.entries))
      && (stored.Ok? && Truthy(Get(stored.value, "access_token")) && !StillValid(stored.value, now / 1000) ==>
            && p.sent == old(p.sent) + RefreshRequests(env, Get(stored.value, "refresh_token"))
            && p.replies == (if Configured(env) then Rest(old(p.replies)) else old(p.replies))
            && (RefreshOutcome(env, Next(old(p.replies))).Throw? ==>
                  r == Throw(RefreshOutcome(env, Next(old(p.replies))).error) && kv.entries == old(kv.entries))
            && (RefreshOutcome(env, Next(old(p.replies))).Ok? ==>
                  && r == Ok(Get(RefreshOutcome(env, Next(old(p.replies))).value, "access_token"))
                  && kv.entries == Written(old(kv.entries), TokKey(sub),
                       JsonText.Serialize(Renewed(RefreshOutcome(env, Next(old(p.replies))).value, stored.value)), None, now)))
  {
    var tok := GetTokens(kv, sub, now);
    if tok.Throw? {
      return Throw(tok.error);
    }
    if !Truthy(Get(tok.value, "access_token")) {
      return Ok(Some(Null));
    }
    if StillValid(tok.value, now / 1000) {
      return Ok(Get(tok.value, "access_token"));
    }
    var refreshed := RefreshTokens(p, env, Get(tok.value, "refresh_token"));
    if refreshed.Throw? {
      return Throw(refreshed.error);
    }
    var saved := SaveTokens(kv, sub, Renewed(refreshed.value, tok.value), now);
    match saved {
      case Throw(e) => r := Throw(e);
      case Ok(_) => r := Ok(Get(refreshed.value, "access_token"));
    }
  }
}
