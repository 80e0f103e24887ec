/**
 * The key-value store every module reads and writes (Upstash Redis over REST): keys map to a value
 * and an optional expiry instant. Time is the caller's `now`, in milliseconds since the epoch.
 *
 * `down` stands for a store that cannot be reached for the whole request: every call then fails.
 * `log` records every call the store received, in order, so that contracts can state the order of
 * effects.
 */
module Kv {
  import opened Wrappers
  import opened JsonValue
  import opened Js

  /**
   * What a read hands back: the text that was written, or a document some other client of the
   * store wrote and the client library hands back already decoded.
   */
  datatype Value = Text(s: string) | Doc(j: Json)

  datatype Entry = Entry(value: Value, expiresAt: Option<int>)

  datatype Op = GetOp(key: string) | SetOp(key: string) | DelOp(key: string)

  /** The error every call fails with while the store cannot be reached. */
  const Unavailable: JsError := JsError("UpstashError", "store request failed", None, None)

  /** An entry is visible until its expiry instant. */
  predicate Live(e: Entry, now: int) {
    e.expiresAt.None? || now < e.expiresAt.value
  }

  /** What `GET key` answers at `now`: the value of a live entry, otherwise nothing. */
  function Lookup(entries: map<string, Entry>, key: string, now: int): (r: Option<Value>)
    ensures r.Some? <==> key in entries && Live(entries[key], now)
    ensures r.Some? ==> r.value == entries[key].value
  {
    if key in entries && Live(entries[key], now) then Some(entries[key].value) else None
  }

  /**
   * The entries after `SET key value [EX ex]` at `now`: the key holds the text, expiring `ex` seconds
   * later when an expiry is given and never otherwise (a plain SET clears an earlier expiry).
   */
  function Written(entries: map<string, Entry>, key: string, value: string, ex: Option<nat>, now: int): map<string, Entry> {
    entries[key := Entry(Text(value), if ex.Some? then Some(now + ex.value * 1000) else None)]
  }

  /** A written key reads back its text until it expires, and every other key is untouched. */
  lemma WrittenLookup(entries: map<string, Entry>, key: string, value: string, ex: Option<nat>, now: int, later: int, other: string)
    requires now <= later && (ex.Some? ==> later < now + ex.value * 1000)
    requires other != key
    ensures Lookup(Written(entries, key, value, ex, now), key, later) == Some(Text(value))
    ensures Lookup(Written(entries, key, value, ex, now), other, later) == Lookup(entries, other, later)
  {
  }

  /** A written key with an expiry reads as absent from its expiry instant on. */
  lemma WrittenExpires(entries: map<string, Entry>, key: string, value: string, ex: nat, now: int, later: int)
    requires now + ex * 1000 <= later
    ensures Lookup(Written(entries, key, value, Some(ex), now), key, later) == None
  {
  }

  class Store {
    var entries: map<string, Entry>
    var down: bool
    var log: seq<Op>

    constructor (entries0: map<string, Entry>, down0: bool)
      ensures entries == entries0 && down == down0 && log == []
    {
      entries := entries0;
      down := down0;
      log := [];
    }

    /** `GET key`. */
    method Get(key: string, now: int) returns (r: Outcome<Option<Value>>)
      modifies this`log
      ensures log == old(log) + [GetOp(key)]
      ensures r == if down then Throw(Unavailable) else Ok(Lookup(entries, key, now))
    {
      log := log + [GetOp(key)];
      if down {
        r := Throw(Unavailable);
      } else {
        r := Ok(Lookup(entries, key, now));
      }
    }

    /** `SET key value [EX ex]`, answering "OK". */
    method Set(key: string, value: string, ex: Option<nat>, now: int) returns (r: Outcome<string>)
      modifies this`entries, this`log
      ensures log == old(log) + [SetOp(key)]
      ensures r == if down then Throw(Unavailable) else Ok("OK")
      ensures entries == if down then old(entries) else Written(old(entries), key, value, ex, now)
    {
      log := log + [SetOp(key)];
      if down {
        r := Throw(Unavailable);
      } else {
        entries := Written(entries, key, value, ex, now);
        r := Ok("OK");
      }
    }

    /** `DEL key`: answers how many live keys it removed (0 or 1); the key is gone afterwards. */
    method Del(key: string, now: int) returns (r: Outcome<int>)
      modifies this`entries, this`log
      ensures log == old(log) + [DelOp(key)]
      ensures r == if down then Throw(Unavailable) else Ok(if Lookup(old(entries), key, now).Some? then 1 else 0)
      ensures entries == if down then old(entries) else old(entries) - {key}
    {
      log := log + [DelOp(key)];
      if down {
        r := Throw(Unavailable);
      } else {
        r := Ok(if Lookup(entries, key, now).Some? then 1 else 0);
        entries := entries - {key};
      }
    }
  }
}
