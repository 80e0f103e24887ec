/**
 * lib/tokens.ts: the access-token resolver with its 90-second safety window, the forced refresh,
 * revocation, and the pure helpers that map a provider answer to a stored record and mask tokens.
 */
module Tokens {
  import opened Wrappers
  import opened JsonValue
  import opened Js
  import opened Kv
  import opened Remote
  import Env
  import RedisHelpers
  import StravaClient
  import Decimal

  /** Refresh when at most this many seconds are left. */
  const RefreshSafetyWindow: int := 90

  // ---------------------------------------------------------------- masking

  function Stars(n: nat): (s: string)
    ensures |s| == n && forall i | 0 <= i < n :: s[i] == '*'
  {
    if n == 0 then "" else Stars(n - 1) + "*"
  }

  /**
   * `mask(v, visible)`: same length; the first `visible` characters stay when the text is longer than
   * that, every other character becomes '*'.
   */
  function Mask(v: string, visible: nat): (r: string)
    ensures |r| == |v|
    ensures forall i | 0 <= i < |v| :: r[i] == if |v| > visible && i < visible then v[i] else '*'
  {
    if v == "" then v
    else if |v| <= visible then Stars(|v|)
    else v[..visible] + Stars(|v| - visible)
  }

  /** What the masking of a non-string token throws: such a value has no `slice` method. */
  const NotSliceable: JsError := TypeError("v.slice is not a function")

  /**
   * `mask(v)` on whatever a stored record holds: a falsy value comes back as it is; a string is masked
   * with four visible characters; an array goes through `length` and `slice` as a string would, and
   * `+` turns the four items kept into their comma-joined text; any other value has no `slice`.
   */
  function MaskToken(j: Json): (r: Outcome<Json>)
    ensures !Truthy(Some(j)) ==> r == Ok(j)
    ensures Truthy(Some(j)) ==> (r.Throw? <==> !j.Str? && !j.Arr?)
    ensures r.Throw? ==> r.error == NotSliceable
    ensures Truthy(Some(j)) && r.Ok? ==> r.value.Str?
    ensures j.Str? ==> r == Ok(Str(Mask(j.s, 4)))
    ensures j.Arr? && |j.items| <= 4 ==> r == Ok(Str(Stars(|j.items|)))
  {
    if !Truthy(Some(j)) then Ok(j)
    else match j
      case Str(s) => Ok(Str(Mask(s, 4)))
      case Arr(items) =>
        Ok(Str(if |items| <= 4 then Stars(|items|) else JsString(Arr(items[..4])) + Stars(|items| - 4)))
      case _ => Throw(NotSliceable)
  }

  /** `if (out[k]) out[k] = mask(out[k])`. */
  function MaskField(fs: seq<Field>, k: string): Outcome<seq<Field>> {
    var v := Find(fs, k);
    if !Truthy(v) then Ok(fs)
    else match MaskToken(v.value)
      case Ok(m) => Ok(Put(fs, k, m))
      case Throw(e) => Throw(e)
  }

  /** The field holds a token whose masking throws. */
  predicate MaskFails(fs: seq<Field>, k: string) {
    Truthy(Find(fs, k)) && MaskToken(Find(fs, k).value).Throw?
  }

  /** `redactTokens(t)`: null and undefined come back as they are; otherwise a copy with both tokens masked. */
  function RedactTokens(t: Option<Json>): Outcome<Option<Json>> {
    if !Truthy(t) then Ok(t)
    else match MaskField(OwnFields(t), "access_token")
      case Throw(e) => Throw(e)
      case Ok(fs) =>
        match MaskField(fs, "refresh_token")
        case Throw(e) => Throw(e)
        case Ok(fs') => Ok(Some(Obj(fs')))
  }

  /** Masking one field fails exactly when that field's token cannot be masked, and changes that field alone. */
  lemma MaskFieldFind(fs: seq<Field>, k: string, k': string)
    ensures MaskField(fs, k).Throw? <==> MaskFails(fs, k)
    ensures MaskField(fs, k).Ok? ==>
      Find(MaskField(fs, k).value, k') ==
        if k' == k && Truthy(Find(fs, k)) then Some(MaskToken(Find(fs, k).value).value) else Find(fs, k')
  {
    if Truthy(Find(fs, k)) && MaskToken(Find(fs, k).value).Ok? && k' != k {
      PutOther(fs, k, MaskToken(Find(fs, k).value).value, k');
    }
  }

  /**
   * A redacted record masks a present access token and refresh token and keeps every other
   * property; a falsy record is returned unchanged; a token that is neither a string nor an array
   * makes the redaction throw a TypeError.
   */
  lemma RedactTokensFields(t: Option<Json>, k: string)
    ensures !Truthy(t) ==> RedactTokens(t) == Ok(t)
    ensures Truthy(t) ==>
      (RedactTokens(t).Throw? <==> MaskFails(OwnFields(t), "access_token") || MaskFails(OwnFields(t), "refresh_token"))
    ensures RedactTokens(t).Throw? ==> RedactTokens(t).error == NotSliceable
    ensures Truthy(t) && RedactTokens(t).Ok? ==>
      && RedactTokens(t).value.Some? && RedactTokens(t).value.value.Obj?
      && Find(RedactTokens(t).value.value.fields, k) ==
           if k in {"access_token", "refresh_token"} && Truthy(Find(OwnFields(t), k))
           then Some(MaskToken(Find(OwnFields(t), k).value).value)
           else Find(OwnFields(t), k)
  {
    if Truthy(t) {
      var fs := OwnFields(t);
      MaskFieldFind(fs, "access_token", k);
      MaskFieldFind(fs, "access_token", "refresh_token");
      if MaskField(fs, "access_token").Ok? {
        var fs1 := MaskField(fs, "access_token").value;
        MaskFieldFind(fs1, "refresh_token", k);
      }
    }
  }

  // ---------------------------------------------------------------- mapping a provider answer

  function MappedFields(r: Json, now: int): seq<(string, Option<Json>)> {
    [("athlete_id", GetOpt(Get(r, "athlete"), "id")),
     ("access_token", Get(r, "access_token")),
     ("refresh_token", Get(r, "refresh_token")),
     ("expires_at", Get(r, "expires_at")),
     ("scope", Get(r, "scope")),
     ("updatedAt", Some(Num(now)))]
  }

  /** `mapStravaTokenResponse(r)`: reading `r.athlete` throws when the answer is null. */
  function MapTokenResponse(r: Json, now: int): (m: Outcome<Json>)
    ensures m.Ok? <==> !r.Null?
  {
    if r.Null? then Throw(TypeError("Cannot read properties of null (reading 'athlete')"))
    else Ok(Record(MappedFields(r, now)))
  }

  /**
   * The mapped record copies access_token, the rotated refresh_token, expires_at and scope from the
   * answer, takes athlete_id from athlete.id (absent when the answer has no athlete) and stamps
   * updatedAt.
   */
  lemma MapTokenResponseFields(r: Json, now: int)
    requires !r.Null?
    ensures var m := MapTokenResponse(r, now).value.fields;
      && Find(m, "athlete_id") == GetOpt(Get(r, "athlete"), "id")
      && Find(m, "access_token") == Get(r, "access_token")
      && Find(m, "refresh_token") == Get(r, "refresh_token")
      && Find(m, "expires_at") == Get(r, "expires_at")
      && Find(m, "scope") == Get(r, "scope")
      && Find(m, "updatedAt") == Some(Num(now))
  {
    var ps := MappedFields(r, now);
    assert DistinctNames(ps);
    RecordFind(ps, 0);
    RecordFind(ps, 1);
    RecordFind(ps, 2);
    RecordFind(ps, 3);
    RecordFind(ps, 4);
    RecordFind(ps, 5);
  }

  /** The mapped record has no other property. */
  lemma MapTokenResponseOnly(r: Json, now: int, k: string)
    requires !r.Null?
    requires k !in {"athlete_id", "access_token", "refresh_token", "expires_at", "scope", "updatedAt"}
    ensures Find(MapTokenResponse(r, now).value.fields, k) == None
  {
    assert k !in Names(MappedFields(r, now));
    RecordOmits(MappedFields(r, now), k);
  }

  // ---------------------------------------------------------------- refreshing

  /** `(tokens.expires_at - nowSec) <= 90`; a missing or non-numeric expiry gives NaN, which is never "soon". */
  predicate ExpiresSoon(tokens: Json, nowSec: int) {
    match ToNumber(Get(tokens, "expires_at"))
    case NaN => false
    case Int(e) => e - nowSec <= RefreshSafetyWindow
  }

  /** What `tryRefresh` yields for the provider's reply: the mapped record, or the error it rethrows. */
  function RefreshOutcome(cfg: Option<Env.Config>, reply: Reply, now: int): (r: Outcome<Json>)
    ensures r.Ok? ==> cfg.Some?
  {
    if cfg.None? then Throw(Env.InvalidConfiguration)
    else
      match StravaClient.TokenResult(reply, StravaClient.RefreshFailed)
      case Throw(e) => Throw(e)
      case Ok(next) => MapTokenResponse(next, now)
  }

  /**
   * The catch block of `tryRefresh`: the error is logged with the redacted current record before it
   * is rethrown, so a redaction that throws replaces the error; a success passes through.
   */
  function Rethrown(current: Json, o: Outcome<Json>): (r: Outcome<Json>)
    ensures r.Ok? <==> o.Ok?
    ensures o.Ok? ==> r == o
    ensures r.Throw? ==> r.error == if RedactTokens(Some(current)).Throw? then NotSliceable else o.error
  {
    match o
    case Ok(_) => o
    case Throw(e) =>
      match RedactTokens(Some(current))
      case Throw(e') => Throw(e')
      case Ok(_) => o
  }

  /** A record whose tokens are strings is redacted without failing, so a failed refresh keeps its own error. */
  lemma RethrownStringTokens(current: Json, o: Outcome<Json>)
    requires Truthy(Some(current))
    requires forall k | k in {"access_token", "refresh_token"} :: !Truthy(Find(OwnFields(Some(current)), k)) || Find(OwnFields(Some(current)), k).value.Str?
    ensures Rethrown(current, o) == o
  {
    RedactTokensFields(Some(current), "access_token");
  }

  /** A refresh the provider refuses is rethrown. */
  lemma RefusedRefresh(cfg: Option<Env.Config>, reply: Reply, now: int)
    requires reply.NetworkFailure? || !Ok2xx(reply.status)
    ensures RefreshOutcome(cfg, reply, now).Throw?
  {
  }

  /** The requests `tryRefresh` sends: one refresh with the stored refresh token, once the configuration is read. */
  function RefreshRequests(cfg: Option<Env.Config>, current: Json): seq<Request> {
    if cfg.Some? then [TokenRequest(StravaClient.RefreshForm(cfg.value, JsStringOf(Get(current, "refresh_token"))))] else []
  }

  /**
   * `tryRefresh(athleteId, current)`: refresh with the stored refresh token, save the mapped record
   * with the default TTL and return it; on any failure rethrow and save nothing.
   */
  method TryRefresh(kv: Store, p: Provider, athleteId: int, current: Json, cfg: Option<Env.Config>, now: int)
    returns (r: Outcome<Json>)
    modifies kv`entries, kv`log, p
    ensures r == Rethrown(current, RefreshOutcome(cfg, Next(old(p.replies)), now))
    ensures p.sent == old(p.sent) + RefreshRequests(cfg, current)
    ensures p.replies == if cfg.Some? then Rest(old(p.replies)) else old(p.replies)
    ensures r.Throw? ==> kv.entries == old(kv.entries) && kv.log == old(kv.log)
    ensures r.Ok? ==>
      && kv.log == old(kv.log) + [SetOp(RedisHelpers.TokensKey(Some(Num(athleteId))))]
      && kv.entries == if kv.down then old(kv.entries)
                       else RedisHelpers.TokensWritten(old(kv.entries), Some(Num(athleteId)), r.value, Env.DefaultTtlSeconds(cfg.value), now)
  {
    var next := StravaClient.RefreshAccessToken(p, cfg, JsStringOf(Get(current, "refresh_token")));
    if next.Throw? {
      return Rethrown(current, Throw(next.error));
    }
    r := MapTokenResponse(next.value, now);
    if r.Throw? {
      return Rethrown(current, r);
    }
    var _ := RedisHelpers.SaveTokens(kv, Some(Num(athleteId)), r.value, None, cfg, now);
  }

  /** The access token a resolved refresh yields (`refreshed.access_token`). */
  function AccessTokenOf(o: Outcome<Json>): Outcome<Option<Json>> {
    match o
    case Ok(m) => Ok(Get(m, "access_token"))
    case Throw(e) => Throw(e)
  }

  /**
   * `getValidAccessToken(athleteId)`: throws when no record is stored (without calling the provider);
   * returns the stored access token, with no refresh and no write, while more than 90 seconds are
   * left; otherwise refreshes exactly once with the stored refresh token, saves the mapped record
   * and returns its access token.
   */
  method GetValidAccessToken(kv: Store, p: Provider, athleteId: int, cfg: Option<Env.Config>, now: nat)
    returns (r: Outcome<Option<Json>>)
    modifies kv`entries, kv`log, p
    ensures var stored := RedisHelpers.StoredTokens(kv.down, old(kv.entries), Some(Num(athleteId)), now);
      var key := RedisHelpers.TokensKey(Some(Num(athleteId)));
      && (!Truthy(Some(stored)) ==>
            && r == Throw(Error("No tokens found for athlete " + Decimal.IntToString(athleteId)))
            && p.sent == old(p.sent) && p.replies == old(p.replies)
            && kv.entries == old(kv.entries) && kv.log == old(kv.log) + [GetOp(key)])
      && (Truthy(Some(stored)) && !ExpiresSoon(stored, now / 1000) ==>
            && r == Ok(Get(stored, "access_token"))
            && p.sent == old(p.sent) && p.replies == old(p.replies)
            && kv.entries == old(kv.entries) && kv.log == old(kv.log) + [GetOp(key)])
      && (Truthy(Some(stored)) && ExpiresSoon(stored, now / 1000) ==>
            && r == AccessTokenOf(Rethrown(stored, RefreshOutcome(cfg, Next(old(p.replies)), now)))
            && p.sent == old(p.sent) + RefreshRequests(cfg, stored)
            && p.replies == (if cfg.Some? then Rest(old(p.replies)) else old(p.replies))
            && (r.Throw? ==> kv.entries == old(kv.entries) && kv.log == old(kv.log) + [GetOp(key)])
            && (r.Ok? ==>
                  && kv.log == old(kv.log) + [GetOp(key), SetOp(key)]
                  && kv.entries == if kv.down then old(kv.entries) else RedisHelpers.TokensWritten(
                       old(kv.entries), Some(Num(athleteId)), RefreshOutcome(cfg, Next(old(p.replies)), now).value,
                       Env.DefaultTtlSeconds(cfg.value), now)))
  {
    var tokens := RedisHelpers.ReadTokens(kv, Some(Num(athleteId)), now);
    if !Truthy(Some(tokens)) {
      return Throw(Error("No tokens found for athlete " + Decimal.IntToString(athleteId)));
    }
    var nowSec := now / 1000;
    if !ExpiresSoon(tokens, nowSec) {
      return Ok(Get(tokens, "access_token"));
    }
    var refreshed := TryRefresh(kv, p, athleteId, tokens, cfg, now);
    r := AccessTokenOf(refreshed);
  }

  /**
   * `forceRefreshAccessToken(athleteId)`: refreshes whatever the expiry, saves the mapped record with
   * the default TTL and returns its access token; throws when no record is stored.
   */
  method ForceRefreshAccessToken(kv: Store, p: Provider, athleteId: int, cfg: Option<Env.Config>, now: nat)
    returns (r: Outcome<Option<Json>>)
    modifies kv`entries, kv`log, p
    ensures var stored := RedisHelpers.StoredTokens(kv.down, old(kv.entries), Some(Num(athleteId)), now);
      var key := RedisHelpers.TokensKey(Some(Num(athleteId)));
      && (!Truthy(Some(stored)) ==>
            && r == Throw(Error("No tokens to refresh for athlete " + Decimal.IntToString(athleteId)))
            && p.sent == old(p.sent) && p.replies == old(p.replies)
            && kv.entries == old(kv.entries) && kv.log == old(kv.log) + [GetOp(key)])
      && (Truthy(Some(stored)) ==>
            && r == AccessTokenOf(Rethrown(stored, RefreshOutcome(cfg, Next(old(p.replies)), now)))
            && p.sent == old(p.sent) + RefreshRequests(cfg, stored)
            && p.replies == (if cfg.Some? then Rest(old(p.replies)) else old(p.replies))
            && (r.Throw? ==> kv.entries == old(kv.entries) && kv.log == old(kv.log) + [GetOp(key)])
            && (r.Ok? ==>
                  && kv.log == old(kv.log) + [GetOp(key), SetOp(key)]
                  && kv.entries == if kv.down then old(kv.entries) else RedisHelpers.TokensWritten(
                       old(kv.entries), Some(Num(athleteId)), RefreshOutcome(cfg, Next(old(p.replies)), now).value,
                       Env.DefaultTtlSeconds(cfg.value), now)))
  {
    var tokens := RedisHelpers.ReadTokens(kv, Some(Num(athleteId)), now);
    if !Truthy(Some(tokens)) {
      return Throw(Error("No tokens to refresh for athlete " + Decimal.IntToString(athleteId)));
    }
    var refreshed := TryRefresh(kv, p, athleteId, tokens, cfg, now);
    r := AccessTokenOf(refreshed);
  }

  /** `revokeTokens(athleteId)`: deletes the athlete's record (a store failure is swallowed). */
  method RevokeTokens(kv: Store, athleteId: int, now: int)
    modifies kv`entries, kv`log
    ensures kv.log == old(kv.log) + [DelOp(RedisHelpers.TokensKey(Some(Num(athleteId))))]
    ensures kv.entries == if kv.down then old(kv.entries) else old(kv.entries) - {RedisHelpers.TokensKey(Some(Num(athleteId)))}
  {
    var _ := RedisHelpers.DeleteTokens(kv, Some(Num(athleteId)), now);
  }
}
