/**
 * api/oauth/_oneTimeStore.js: the one-time code broker. `issue` stores `otc:{code}` for three
 * minutes; `consume` reads the key and deletes it, so that sequential consumers see a subject at
 * most once. Store failures propagate (this module uses the raw client).
 */
module OneTimeCodes {
  import opened Wrappers
  import opened JsonValue
  import opened Js
  import opened Kv
  import opened Bytes
  import Base64Url
  import RedisHelpers
  import LegacyStore

  /** Codes live 180 seconds. */
  const TtlSeconds: nat := 180

  const CodePrefix: string := "otc:"

  /** `otc:${code}`. */
  function CodeKey(code: string): string {
    CodePrefix + code
  }

  /** `b64url(randomBytes(24))`. */
  function CodeOf(bytes: seq<byte>): string {
    Base64Url.Encode(bytes)
  }

  /**
   * A code is 32 URL-safe characters with no padding, and decodes back to the 24 random bytes it
   * was made from (so distinct draws give distinct codes).
   */
  lemma CodeShape(bytes: seq<byte>)
    requires |bytes| == 24
    ensures |CodeOf(bytes)| == 32
    ensures forall i | 0 <= i < 32 :: Base64Url.IsUrlSafe(CodeOf(bytes)[i]) && CodeOf(bytes)[i] != '='
    ensures Base64Url.Decode(CodeOf(bytes)) == bytes
  {
    Base64Url.DecodeEncode(bytes);
  }

  /** Code keys never meet the token, state or athlete-index keys. */
  lemma CodeKeyApart(code: string, sub: Option<Json>, state: string, athleteId: Option<Json>, userId: string)
    ensures CodeKey(code) != LegacyStore.TokKey(sub)
    ensures CodeKey(code) != RedisHelpers.TokensKey(athleteId)
    ensures CodeKey(code) != RedisHelpers.OAuthStateKey(state)
    ensures CodeKey(code) != RedisHelpers.AthleteIndexKey(userId)
  {
    assert CodeKey(code)[0] == 'o';
    assert LegacyStore.TokKey(sub)[0] == 's';
    assert RedisHelpers.TokensKey(athleteId)[0] == 't';
    assert RedisHelpers.OAuthStateKey(state)[0] == 's';
    assert RedisHelpers.AthleteIndexKey(userId)[0] == 'a';
  }

  /**
   * `issueOneTimeCodeFor(sub)`: stores `otc:{code}` → sub with a 180-second expiry and returns the
   * code; `bytes` are the 24 random bytes drawn for it.
   */
  method Issue(kv: Store, sub: string, bytes: seq<byte>, now: int) returns (r: Outcome<string>)
    requires |bytes| == 24
    modifies kv`entries, kv`log
    ensures kv.log == old(kv.log) + [SetOp(CodeKey(CodeOf(bytes)))]
    ensures kv.down ==> r == Throw(Unavailable) && kv.entries == old(kv.entries)
    ensures !kv.down ==>
      r == Ok(CodeOf(bytes)) && kv.entries == Written(old(kv.entries), CodeKey(CodeOf(bytes)), sub, Some(TtlSeconds), now)
  {
    var code := CodeOf(bytes);
    var written := kv.Set(CodeKey(code), sub, Some(TtlSeconds), now);
    if written.Throw? {
      return Throw(written.error);
    }
    r := Ok(code);
  }

  /** What `consumeOneTimeCode` answers for what the read found: the subject as text, or null. */
  function Consumed(v: Option<Value>): Option<string> {
    if v.Some? && RedisHelpers.TruthyValue(v.value) then Some(RedisHelpers.TextOf(v.value)) else None
  }

  /**
   * `consumeOneTimeCode(code)`: an absent, expired or empty entry gives null and deletes nothing; a
   * present one is deleted and its subject returned. Only `otc:{code}` is read or deleted.
   */
  method Consume(kv: Store, code: Json, now: int) returns (r: Outcome<Option<string>>)
    modifies kv`entries, kv`log
    ensures kv.down ==> r == Throw(Unavailable) && kv.entries == old(kv.entries) && kv.log == old(kv.log) + [GetOp(CodeKey(JsString(code)))]
    ensures !kv.down ==> var found := Lookup(old(kv.entries), CodeKey(JsString(code)), now);
      && r == Ok(Consumed(found))
      && (Consumed(found).None? ==> kv.entries == old(kv.entries) && kv.log == old(kv.log) + [GetOp(CodeKey(JsString(code)))])
      && (Consumed(found).Some? ==>
            && kv.entries == old(kv.entries) - {CodeKey(JsString(code))}
            && kv.log == old(kv.log) + [GetOp(CodeKey(JsString(code))), DelOp(CodeKey(JsString(code)))])
  {
    var key := CodeKey(JsString(code));
    var got := kv.Get(key, now);
    if got.Throw? {
      return Throw(got.error);
    }
    if Consumed(got.value).None? {
      return Ok(None);
    }
    var deleted := kv.Del(key, now);
    match deleted {
      case Throw(e) => r := Throw(e);
      case Ok(_) => r := Ok(Consumed(got.value));
    }
  }

  /** An issued code reads back its subject until it expires, and is gone from its expiry on. */
  lemma IssuedLookup(entries: map<string, Entry>, code: string, sub: string, now: int, later: int)
    requires now <= later
    ensures later < now + TtlSeconds * 1000 ==>
      Consumed(Lookup(Written(entries, CodeKey(code), sub, Some(TtlSeconds), now), CodeKey(code), later)) == if sub == "" then None else Some(sub)
    ensures later >= now + TtlSeconds * 1000 ==>
      Consumed(Lookup(Written(entries, CodeKey(code), sub, Some(TtlSeconds), now), CodeKey(code), later)) == None
  {
    if later < now + TtlSeconds * 1000 {
      WrittenLookup(entries, CodeKey(code), sub, Some(TtlSeconds), now, later, CodeKey(code) + "/");
    } else {
      WrittenExpires(entries, CodeKey(code), sub, TtlSeconds, now, later);
    }
  }

  /** Run one after the other, two consumes of the same code yield the subject at most once. */
  method ConsumeTwice(kv: Store, code: Json, now: int, later: int) returns (first: Outcome<Option<string>>, second: Outcome<Option<string>>)
    requires now <= later
    modifies kv`entries, kv`log
    ensures !kv.down ==> second == Ok(None)
    ensures first.Ok? && first.value.Some? ==> second != first
  {
    first := Consume(kv, code, now);
    second := Consume(kv, code, later);
  }

  /** A code consumed within three minutes of being issued yields the subject it was issued for. */
  method IssueThenConsume(kv: Store, sub: string, bytes: seq<byte>, now: int, later: int)
    returns (code: Outcome<string>, consumed: Outcome<Option<string>>)
    requires |bytes| == 24 && sub != ""
    requires now <= later < now + TtlSeconds * 1000
    modifies kv`entries, kv`log
    ensures !kv.down ==> code == Ok(CodeOf(bytes)) && consumed == Ok(Some(sub))
    ensures kv.down ==> code.Throw? && consumed.Throw?
  {
    code := Issue(kv, sub, bytes, now);
    if code.Throw? {
      consumed := Throw(code.error);
      return;
    }
    IssuedLookup(old(kv.entries), code.value, sub, now, later);
    consumed := Consume(kv, Str(code.value), later);
  }
}
