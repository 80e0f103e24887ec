/**
 * lib/redis.ts: namespaced keys, string and JSON helpers that never let a store failure escape,
 * and the OAuth-state, token and athlete-index records built on them.
 */
module RedisHelpers {
  import opened Wrappers
  import opened JsonValue
  import opened Js
  import opened Kv
  import Env
  import JsonText
  import JsonTextRoundTrip
  import Decimal

  // ---------------------------------------------------------------- key namespaces

  function OAuthStateKey(state: string): string {
    "state:" + state
  }

  /** `tokens:${athleteId}`: the id is written as JavaScript prints it (undefined as "undefined"). */
  function TokensKey(athleteId: Option<Json>): string {
    "tokens:" + JsStringOf(athleteId)
  }

  function AthleteIndexKey(userId: string): string {
    "athleteIndex:" + userId
  }

  /** The three namespaces never share a key, and each builder is one-to-one. */
  lemma KeysDistinct(state: string, athleteId: Option<Json>, userId: string)
    ensures OAuthStateKey(state) != TokensKey(athleteId)
    ensures OAuthStateKey(state) != AthleteIndexKey(userId)
    ensures TokensKey(athleteId) != AthleteIndexKey(userId)
  {
    assert OAuthStateKey(state)[0] == 's' && TokensKey(athleteId)[0] == 't' && AthleteIndexKey(userId)[0] == 'a';
  }

  lemma KeysInjective(s1: string, s2: string, a1: Option<Json>, a2: Option<Json>, u1: string, u2: string)
    ensures OAuthStateKey(s1) == OAuthStateKey(s2) ==> s1 == s2
    ensures TokensKey(a1) == TokensKey(a2) ==> JsStringOf(a1) == JsStringOf(a2)
    ensures AthleteIndexKey(u1) == AthleteIndexKey(u2) ==> u1 == u2
  {
    if OAuthStateKey(s1) == OAuthStateKey(s2) { assert s1 == OAuthStateKey(s1)[6..]; }
    if TokensKey(a1) == TokensKey(a2) { assert JsStringOf(a1) == TokensKey(a1)[7..]; }
    if AthleteIndexKey(u1) == AthleteIndexKey(u2) { assert u1 == AthleteIndexKey(u1)[13..]; }
  }

  // ---------------------------------------------------------------- string helpers

  /** The expiry `setStr` asks for: `EX ttl` when the TTL is positive, none otherwise. */
  function Expiry(ttlSeconds: int): (ex: Option<nat>)
    ensures ex.Some? <==> ttlSeconds > 0
    ensures ex.Some? ==> ex.value == ttlSeconds
  {
    if ttlSeconds > 0 then Some(ttlSeconds) else None
  }

  /**
   * The TTL argument after JavaScript's default: the given one, else `getDefaultTtlSeconds()`, which
   * throws when the configuration does not validate (outside the helper's `try`).
   */
  function TtlArgument(ttl: Option<int>, cfg: Option<Env.Config>): (r: Outcome<int>)
    ensures ttl.Some? ==> r == Ok(ttl.value)
    ensures ttl.None? && cfg.Some? ==> r == Ok(Env.DefaultTtlSeconds(cfg.value))
    ensures ttl.None? && cfg.None? ==> r == Throw(Env.InvalidConfiguration)
  {
    if ttl.Some? then Ok(ttl.value)
    else if cfg.Some? then Ok(Env.DefaultTtlSeconds(cfg.value))
    else Throw(Env.InvalidConfiguration)
  }

  /** `setStr(key, value, ttlSeconds)`: "OK", or null when the store fails. */
  method SetStr(kv: Store, key: string, value: string, ttlSeconds: int, now: int) returns (r: Option<string>)
    modifies kv`entries, kv`log
    ensures kv.log == old(kv.log) + [SetOp(key)]
    ensures r == if kv.down then None else Some("OK")
    ensures kv.entries == if kv.down then old(kv.entries) else Written(old(kv.entries), key, value, Expiry(ttlSeconds), now)
  {
    var res := kv.Set(key, value, Expiry(ttlSeconds), now);
    r := if res.Ok? then Some(res.value) else None;
  }

  /** `getStr(key)`: the stored value, or null when it is absent, expired or the store fails. */
  method GetStr(kv: Store, key: string, now: int) returns (r: Option<Value>)
    modifies kv`log
    ensures kv.log == old(kv.log) + [GetOp(key)]
    ensures r == if kv.down then None else Lookup(kv.entries, key, now)
  {
    var res := kv.Get(key, now);
    r := if res.Ok? then res.value else None;
  }

  /** `delKey(key)`: the number of keys removed, 0 when the store fails. */
  method DelKey(kv: Store, key: string, now: int) returns (r: int)
    modifies kv`entries, kv`log
    ensures kv.log == old(kv.log) + [DelOp(key)]
    ensures r == if kv.down then 0 else if Lookup(old(kv.entries), key, now).Some? then 1 else 0
    ensures kv.entries == if kv.down then old(kv.entries) else old(kv.entries) - {key}
  {
    var res := kv.Del(key, now);
    r := if res.Ok? then res.value else 0;
  }

  // ---------------------------------------------------------------- JSON helpers

  /** `String(v)` of what the store handed back. */
  function TextOf(v: Value): string {
    match v
    case Text(s) => s
    case Doc(j) => JsString(j)
  }

  /** What `getJSON` makes of a read: null for nothing, the parsed text, or null when it does not parse. */
  function ReadJson(v: Option<Value>): Json {
    if v.None? || v.value == Doc(Null) then Null
    else JsonText.Parse(TextOf(v.value)).GetOr(Null)
  }

  /** Text that `setJSON` wrote is read back by `getJSON` as the value it serialized. */
  lemma ReadJsonSerialized(j: Json)
    requires WellFormed(j)
    ensures ReadJson(Some(Text(JsonText.Serialize(j)))) == j
  {
    JsonTextRoundTrip.SerializeParse(j);
  }

  /** Text that is not JSON reads as null. */
  lemma ReadJsonMalformed(s: string)
    requires JsonText.Parse(s).None?
    ensures ReadJson(Some(Text(s))) == Null
  {
  }

  /**
   * `setJSON` then `getJSON` on the same key, before the key expires, gives back the value; the
   * write leaves every other key as it was.
   */
  lemma JsonRoundTrip(entries: map<string, Entry>, key: string, j: Json, ex: Option<nat>, now: int, later: int, other: string)
    requires WellFormed(j)
    requires now <= later && (ex.Some? ==> later < now + ex.value * 1000)
    requires other != key
    ensures ReadJson(Lookup(Written(entries, key, JsonText.Serialize(j), ex, now), key, later)) == j
    ensures Lookup(Written(entries, key, JsonText.Serialize(j), ex, now), other, later) == Lookup(entries, other, later)
  {
    WrittenLookup(entries, key, JsonText.Serialize(j), ex, now, later, other);
    ReadJsonSerialized(j);
  }

  /**
   * `setJSON(key, value, ttlSeconds)`: only a configuration failure behind a defaulted TTL escapes;
   * otherwise "OK", or null when the store fails.
   */
  method SetJson(kv: Store, key: string, value: Json, ttl: Option<int>, cfg: Option<Env.Config>, now: int)
    returns (r: Outcome<Option<string>>)
    modifies kv`entries, kv`log
    ensures TtlArgument(ttl, cfg).Throw? ==>
      r == Throw(TtlArgument(ttl, cfg).error) && kv.entries == old(kv.entries) && kv.log == old(kv.log)
    ensures TtlArgument(ttl, cfg).Ok? ==>
      && r == Ok(if kv.down then None else Some("OK"))
      && kv.log == old(kv.log) + [SetOp(key)]
      && kv.entries == if kv.down then old(kv.entries)
                       else Written(old(kv.entries), key, JsonText.Serialize(value), Expiry(TtlArgument(ttl, cfg).value), now)
  {
    var t := TtlArgument(ttl, cfg);
    if t.Throw? {
      return Throw(t.error);
    }
    var s := SetStr(kv, key, JsonText.Serialize(value), t.value, now);
    r := Ok(s);
  }

  /** `getJSON(key)`. */
  method GetJson(kv: Store, key: string, now: int) returns (r: Json)
    modifies kv`log
    ensures kv.log == old(kv.log) + [GetOp(key)]
    ensures r == if kv.down then Null else ReadJson(Lookup(kv.entries, key, now))
  {
    var s := GetStr(kv, key, now);
    r := ReadJson(s);
  }

  // ---------------------------------------------------------------- OAuth state records

  method SaveOAuthState(kv: Store, state: string, rec: Json, ttl: Option<int>, cfg: Option<Env.Config>, now: int)
    returns (r: Outcome<Option<string>>)
    modifies kv`entries, kv`log
    ensures TtlArgument(ttl, cfg).Throw? ==> r.Throw? && kv.entries == old(kv.entries) && kv.log == old(kv.log)
    ensures TtlArgument(ttl, cfg).Ok? ==>
      && r.Ok? && kv.log == old(kv.log) + [SetOp(OAuthStateKey(state))]
      && kv.entries == if kv.down then old(kv.entries)
                       else Written(old(kv.entries), OAuthStateKey(state), JsonText.Serialize(rec), Expiry(TtlArgument(ttl, cfg).value), now)
  {
    r := SetJson(kv, OAuthStateKey(state), rec, ttl, cfg, now);
  }

  /** What `readOAuthState(state)` answers from these entries. */
  function StoredState(down: bool, entries: map<string, Entry>, state: string, now: int): Json {
    if down then Null else ReadJson(Lookup(entries, OAuthStateKey(state), now))
  }

  method ReadOAuthState(kv: Store, state: string, now: int) returns (r: Json)
    modifies kv`log
    ensures kv.log == old(kv.log) + [GetOp(OAuthStateKey(state))]
    ensures r == StoredState(kv.down, kv.entries, state, now)
  {
    r := GetJson(kv, OAuthStateKey(state), now);
  }

  method DeleteOAuthState(kv: Store, state: string, now: int) returns (r: int)
    modifies kv`entries, kv`log
    ensures kv.log == old(kv.log) + [DelOp(OAuthStateKey(state))]
    ensures kv.entries == if kv.down then old(kv.entries) else old(kv.entries) - {OAuthStateKey(state)}
  {
    r := DelKey(kv, OAuthStateKey(state), now);
  }

  // ---------------------------------------------------------------- token records

  /** `{...tokens, updatedAt: now}`. */
  function Stamped(tokens: Json, now: int): Json {
    Obj(Spread(OwnFields(Some(tokens)), [Field("updatedAt", Num(now))]))
  }

  /**
   * The stored record carries `updatedAt` = now whatever the caller passed, every other property of
   * the caller's record unchanged, and nothing else.
   */
  lemma StampedFields(tokens: Json, now: int, k: string)
    ensures Find(Stamped(tokens, now).fields, "updatedAt") == Some(Num(now))
    ensures k != "updatedAt" ==> Find(Stamped(tokens, now).fields, k) == Find(OwnFields(Some(tokens)), k)
  {
    var b := [Field("updatedAt", Num(now))];
    SpreadFind(OwnFields(Some(tokens)), b, "updatedAt");
    SpreadFind(OwnFields(Some(tokens)), b, k);
  }

  lemma StampedWellFormed(tokens: Json, now: int)
    requires WellFormed(tokens)
    ensures WellFormed(Stamped(tokens, now))
  {
    SpreadWellFormed(OwnFields(Some(tokens)), [Field("updatedAt", Num(now))]);
  }

  /** The entries after `saveTokens(athleteId, tokens)` wrote with TTL `ttl` at `now`. */
  function TokensWritten(entries: map<string, Entry>, athleteId: Option<Json>, tokens: Json, ttl: int, now: int): map<string, Entry> {
    Written(entries, TokensKey(athleteId), JsonText.Serialize(Stamped(tokens, now)), Expiry(ttl), now)
  }

  /** What `readTokens(athleteId)` answers from these entries. */
  function StoredTokens(down: bool, entries: map<string, Entry>, athleteId: Option<Json>, now: int): Json {
    if down then Null else ReadJson(Lookup(entries, TokensKey(athleteId), now))
  }

  /**
   * What `saveTokens` stored reads back, before it expires, as the caller's record with `updatedAt`
   * set to the time of the write.
   */
  lemma SavedTokensReadBack(entries: map<string, Entry>, athleteId: Option<Json>, tokens: Json, ttl: int, now: int, later: int)
    requires WellFormed(tokens)
    requires now <= later && (ttl > 0 ==> later < now + ttl * 1000)
    ensures StoredTokens(false, TokensWritten(entries, athleteId, tokens, ttl, now), athleteId, later) == Stamped(tokens, now)
  {
    StampedWellFormed(tokens, now);
    JsonRoundTrip(entries, TokensKey(athleteId), Stamped(tokens, now), Expiry(ttl), now, later, "");
  }

  /** `saveTokens(athleteId, tokens, ttlSeconds)`: the stamped record under `tokens:{athleteId}`. */
  method SaveTokens(kv: Store, athleteId: Option<Json>, tokens: Json, ttl: Option<int>, cfg: Option<Env.Config>, now: int)
    returns (r: Outcome<Option<string>>)
    modifies kv`entries, kv`log
    ensures TtlArgument(ttl, cfg).Throw? ==> r.Throw? && kv.entries == old(kv.entries) && kv.log == old(kv.log)
    ensures TtlArgument(ttl, cfg).Ok? ==>
      && r.Ok? && kv.log == old(kv.log) + [SetOp(TokensKey(athleteId))]
      && kv.entries == if kv.down then old(kv.entries) else TokensWritten(old(kv.entries), athleteId, tokens, TtlArgument(ttl, cfg).value, now)
  {
    r := SetJson(kv, TokensKey(athleteId), Stamped(tokens, now), ttl, cfg, now);
  }

  method ReadTokens(kv: Store, athleteId: Option<Json>, now: int) returns (r: Json)
    modifies kv`log
    ensures kv.log == old(kv.log) + [GetOp(TokensKey(athleteId))]
    ensures r == StoredTokens(kv.down, kv.entries, athleteId, now)
  {
    r := GetJson(kv, TokensKey(athleteId), now);
  }

  method DeleteTokens(kv: Store, athleteId: Option<Json>, now: int) returns (r: int)
    modifies kv`entries, kv`log
    ensures kv.log == old(kv.log) + [DelOp(TokensKey(athleteId))]
    ensures kv.entries == if kv.down then old(kv.entries) else old(kv.entries) - {TokensKey(athleteId)}
  {
    r := DelKey(kv, TokensKey(athleteId), now);
  }

  // ---------------------------------------------------------------- athlete index

  /** JavaScript truthiness of what the store handed back. */
  predicate TruthyValue(v: Value) {
    match v
    case Text(s) => s != ""
    case Doc(j) => Truthy(Some(j))
  }

  /** `Number(v)` of what the store handed back. */
  function NumberOf(v: Value): JsNum {
    match v
    case Text(s) => NumberOfText(s)
    case Doc(j) => ToNumber(Some(j))
  }

  /** `v ? Number(v) : null`, with `None` for null. */
  function IndexOf(v: Option<Value>): Option<JsNum> {
    if v.Some? && TruthyValue(v.value) then Some(NumberOf(v.value)) else None
  }

  /** The text `saveAthleteIndex` writes reads back as the athlete id. */
  lemma IndexRoundTrip(athleteId: int)
    ensures IndexOf(Some(Text(Decimal.IntToString(athleteId)))) == Some(Int(athleteId))
  {
    NumberOfDecimal(athleteId);
  }

  /** `saveAthleteIndex(userId, athleteId)`: the id as decimal text, with the default TTL. */
  method SaveAthleteIndex(kv: Store, userId: string, athleteId: int, cfg: Option<Env.Config>, now: int)
    returns (r: Outcome<Option<string>>)
    modifies kv`entries, kv`log
    ensures cfg.None? ==> r.Throw? && kv.entries == old(kv.entries) && kv.log == old(kv.log)
    ensures cfg.Some? ==>
      && r.Ok? && kv.log == old(kv.log) + [SetOp(AthleteIndexKey(userId))]
      && kv.entries == if kv.down then old(kv.entries)
                       else Written(old(kv.entries), AthleteIndexKey(userId), Decimal.IntToString(athleteId), Expiry(Env.DefaultTtlSeconds(cfg.value)), now)
  {
    var t := TtlArgument(None, cfg);
    if t.Throw? {
      return Throw(t.error);
    }
    var s := SetStr(kv, AthleteIndexKey(userId), Decimal.IntToString(athleteId), t.value, now);
    r := Ok(s);
  }

  /** `readAthleteIndex(userId)`: the stored id as a number, or null when there is none. */
  method ReadAthleteIndex(kv: Store, userId: string, now: int) returns (r: Option<JsNum>)
    modifies kv`log
    ensures kv.log == old(kv.log) + [GetOp(AthleteIndexKey(userId))]
    ensures r == if kv.down then None else IndexOf(Lookup(kv.entries, AthleteIndexKey(userId), now))
  {
    var v := GetStr(kv, AthleteIndexKey(userId), now);
    r := IndexOf(v);
  }

  method DeleteAthleteIndex(kv: Store, userId: string, now: int) returns (r: int)
    modifies kv`entries, kv`log
    ensures kv.log == old(kv.log) + [DelOp(AthleteIndexKey(userId))]
    ensures kv.entries == if kv.down then old(kv.entries) else old(kv.entries) - {AthleteIndexKey(userId)}
  {
    r := DelKey(kv, AthleteIndexKey(userId), now);
  }

  /** `saveAthleteIndex` then `readAthleteIndex` before expiry gives the id back; a missing index gives null. */
  lemma AthleteIndexRoundTrip(entries: map<string, Entry>, userId: string, athleteId: int, ex: Option<nat>, now: int, later: int)
    requires now <= later && (ex.Some? ==> later < now + ex.value * 1000)
    ensures IndexOf(Lookup(Written(entries, AthleteIndexKey(userId), Decimal.IntToString(athleteId), ex, now), AthleteIndexKey(userId), later)) == Some(Int(athleteId))
    ensures AthleteIndexKey(userId) !in entries ==> IndexOf(Lookup(entries, AthleteIndexKey(userId), later)) == None
  {
    IndexRoundTrip(athleteId);
  }
}
