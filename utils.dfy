/**
 * The route helpers of lib/utils.ts: the `after` bound of an activities query (whole seconds,
 * `days` days before now) and the two JSON answer shapes, `{ok: true, data}` and
 * `{ok: false, error, ...meta}`.
 */
module Utils {
  import opened Wrappers
  import opened JsonValue
  import opened Js
  import Activities

  const DayMs: nat := 24 * 60 * 60 * 1000
  const DefaultDays: int := 28

  /** The `days` argument; `undefined` takes the default of 28. */
  function Days(days: Option<int>): int {
    if days.Some? then days.value else DefaultDays
  }

  /** `getAfterTimestamp(days)` at `nowMs`: the floor of `(nowMs - days * 86400000) / 1000`. */
  function AfterTimestamp(nowMs: int, days: Option<int>): (t: int)
    ensures t * 1000 <= nowMs - Days(days) * DayMs < t * 1000 + 1000
  {
    (nowMs - Days(days) * DayMs) / 1000
  }

  /** Going further back never gives a later bound. */
  lemma AfterMonotone(nowMs: int, d1: int, d2: int)
    requires d1 <= d2
    ensures AfterTimestamp(nowMs, Some(d2)) <= AfterTimestamp(nowMs, Some(d1))
  {
    var t1, t2 := AfterTimestamp(nowMs, Some(d1)), AfterTimestamp(nowMs, Some(d2));
    assert d2 * DayMs >= d1 * DayMs;
    assert t2 * 1000 < t1 * 1000 + 1000;
  }

  /** Whole days are whole seconds: the bound is the current second less `days` days of seconds. */
  lemma AfterWholeDays(nowMs: int, days: int)
    ensures AfterTimestamp(nowMs, Some(days)) == nowMs / 1000 - days * 86400
  {
    var t, s := AfterTimestamp(nowMs, Some(days)), nowMs / 1000 - days * 86400;
    assert days * DayMs == days * 86400 * 1000;
    assert s * 1000 <= nowMs - days * DayMs < s * 1000 + 1000;
    assert (t - s) * 1000 < 1000 && (s - t) * 1000 < 1000;
  }

  /** The default 28 days is the window api/activities.js computes for itself. */
  lemma AfterDefault(nowMs: nat)
    ensures AfterTimestamp(nowMs, None) == Activities.After(nowMs)
  {
    AfterWholeDays(nowMs, DefaultDays);
  }

  /** The status of `init`, or 200 without one. */
  function StatusOr(status: Option<int>, fallback: int): int {
    if status.Some? then status.value else fallback
  }

  /** `jsonOk(data, init)`. */
  function JsonOk(data: Option<Json>, status: Option<int>): (r: Response)
    ensures r.status == StatusOr(status, 200) && r.body.JsonBody? && r.location.None?
  {
    JsonResponse(StatusOr(status, 200), Record([("ok", Some(Bool(true))), ("data", data)]))
  }

  /** The answer reads `ok: true`, and `data` is the data given (absent when that is undefined). */
  lemma JsonOkFields(data: Option<Json>, status: Option<int>)
    ensures var body := JsonOk(data, status).body.value;
      Get(body, "ok") == Some(Bool(true)) && Get(body, "data") == data
  {
    var ps := [("ok", Some(Bool(true))), ("data", data)];
    RecordFind(ps, 0);
    RecordFind(ps, 1);
  }

  /** The properties before the spread of `meta`. */
  function ErrorBase(message: string): seq<Field> {
    Record([("ok", Some(Bool(false))), ("error", Some(Str(message)))]).fields
  }

  /** `jsonError(message, status, meta)`: status 500 unless given; `meta` is spread last. */
  function JsonError(message: string, status: Option<int>, meta: Option<Json>): (r: Response)
    ensures r.status == StatusOr(status, 500) && r.body.JsonBody? && r.body.value.Obj? && r.location.None?
  {
    JsonResponse(StatusOr(status, 500), Obj(Spread(ErrorBase(message), OwnFields(Or(meta, Some(Obj([])))))))
  }

  /**
   * A property of `meta` wins over `ok` and `error`; without it `ok` is false and `error` the
   * message; any other property is `meta`'s.
   */
  lemma JsonErrorFields(message: string, status: Option<int>, meta: Option<Json>, k: string)
    requires DistinctKeys(OwnFields(meta))
    ensures var fields := JsonError(message, status, meta).body.value.fields;
      && (k in Keys(OwnFields(meta)) ==> Find(fields, k) == Find(OwnFields(meta), k))
      && (k !in Keys(OwnFields(meta)) && k == "ok" ==> Find(fields, k) == Some(Bool(false)))
      && (k !in Keys(OwnFields(meta)) && k == "error" ==> Find(fields, k) == Some(Str(message)))
      && (k !in Keys(OwnFields(meta)) && k != "ok" && k != "error" ==> Find(fields, k) == None)
  {
    var ps := [("ok", Some(Bool(false))), ("error", Some(Str(message)))];
    assert OwnFields(Or(meta, Some(Obj([])))) == OwnFields(meta);
    SpreadFind(ErrorBase(message), OwnFields(meta), k);
    RecordFind(ps, 0);
    RecordFind(ps, 1);
    if k != "ok" && k != "error" {
      RecordOmits(ps, k);
    }
  }
}
