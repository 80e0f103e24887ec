/**
 * JavaScript values as the core handles them: JSON-shaped data (request bodies, provider
 * responses, stored records). `Option<Json>` stands for a value that may be `undefined`.
 * Objects keep their properties in insertion order, as JavaScript enumerates them.
 */
module JsonValue {
  import opened Wrappers
  import Decimal

  datatype Json =
    | Null
    | Bool(b: bool)
    | Num(n: int)
    | Str(s: string)
    | Arr(items: seq<Json>)
    | Obj(fields: seq<Field>)

  datatype Field = Field(key: string, val: Json)

  // ---------------------------------------------------------------- properties

  /** The property names, in order. */
  function Keys(fs: seq<Field>): seq<string> {
    seq(|fs|, i requires 0 <= i < |fs| => fs[i].key)
  }

  lemma KeysCons(fs: seq<Field>)
    requires fs != []
    ensures Keys(fs) == [fs[0].key] + Keys(fs[1..])
  {
  }

  predicate DistinctKeys(fs: seq<Field>) {
    forall i, j | 0 <= i < j < |fs| :: fs[i].key != fs[j].key
  }

  /** Property lookup `o[k]` on an object's property list. */
  function Find(fs: seq<Field>, k: string): (r: Option<Json>)
    ensures r.Some? <==> k in Keys(fs)
  {
    if fs == [] then None
    else
      KeysCons(fs);
      if fs[0].key == k then Some(fs[0].val) else Find(fs[1..], k)
  }

  /** Property assignment `o[k] = v`: an existing property keeps its place, a new one goes last. */
  function Put(fs: seq<Field>, k: string, v: Json): (r: seq<Field>)
    ensures Find(r, k) == Some(v)
  {
    if fs == [] then [Field(k, v)]
    else if fs[0].key == k then
      var r := [Field(k, v)] + fs[1..];
      assert r[1..] == fs[1..];
      r
    else
      var t := Put(fs[1..], k, v);
      var r := [fs[0]] + t;
      assert r[1..] == t;
      r
  }

  /** Assignment leaves every other property as it was. */
  lemma {:induction false} PutOther(fs: seq<Field>, k: string, v: Json, k': string)
    requires k' != k
    ensures Find(Put(fs, k, v), k') == Find(fs, k')
    decreases |fs|
  {
    if fs != [] && fs[0].key != k {
      PutOther(fs[1..], k, v, k');
      var r := Put(fs, k, v);
      assert r[1..] == Put(fs[1..], k, v);
    }
  }

  /** An existing property keeps its place; a new one goes after all the others. */
  lemma {:induction false} PutKeys(fs: seq<Field>, k: string, v: Json)
    ensures Keys(Put(fs, k, v)) == if k in Keys(fs) then Keys(fs) else Keys(fs) + [k]
    decreases |fs|
  {
    if fs != [] {
      var r := Put(fs, k, v);
      KeysCons(fs);
      KeysCons(r);
      if fs[0].key == k {
        assert r[1..] == fs[1..];
      } else {
        var t := Put(fs[1..], k, v);
        PutKeys(fs[1..], k, v);
        assert r[1..] == t;
        assert k in Keys(fs) <==> k in Keys(fs[1..]);
        assert [fs[0].key] + (Keys(fs[1..]) + [k]) == [fs[0].key] + Keys(fs[1..]) + [k];
      }
    }
  }

  /** Assigning a property the object does not have yet appends it. */
  lemma {:induction false} PutFresh(fs: seq<Field>, k: string, v: Json)
    requires forall i | 0 <= i < |fs| :: fs[i].key != k
    ensures Put(fs, k, v) == fs + [Field(k, v)]
    decreases |fs|
  {
    if fs != [] {
      var t := fs[1..];
      forall i | 0 <= i < |t| ensures t[i].key != k {
        assert t[i] == fs[i + 1];
      }
      PutFresh(t, k, v);
      ConsAppend(fs, Field(k, v));
    }
  }

  lemma ConsAppend<T>(xs: seq<T>, x: T)
    requires xs != []
    ensures [xs[0]] + (xs[1..] + [x]) == xs + [x]
  {
  }

  /** Assignment keeps property names distinct, and keeps every value well formed. */
  lemma PutWellFormed(fs: seq<Field>, k: string, v: Json)
    ensures DistinctKeys(fs) ==> DistinctKeys(Put(fs, k, v))
    ensures FieldsWellFormed(fs) && WellFormed(v) ==> FieldsWellFormed(Put(fs, k, v))
  {
    if DistinctKeys(fs) { PutDistinct(fs, k, v); }
    if ValuesWellFormed(fs) && WellFormed(v) { PutValues(fs, k, v); }
  }

  lemma PutDistinct(fs: seq<Field>, k: string, v: Json)
    requires DistinctKeys(fs)
    ensures DistinctKeys(Put(fs, k, v))
  {
    var r := Put(fs, k, v);
    var ks, ks' := Keys(fs), Keys(r);
    PutKeys(fs, k, v);
    forall i, j | 0 <= i < j < |r| ensures r[i].key != r[j].key {
      assert r[i].key == ks'[i] && r[j].key == ks'[j];
      if j < |fs| {
        assert ks'[i] == ks[i] && ks'[j] == ks[j];
        assert fs[i].key == ks[i] && fs[j].key == ks[j];
      } else {
        assert ks'[j] == k && k !in ks;
        assert ks'[i] == ks[i];
      }
    }
  }

  predicate ValuesWellFormed(fs: seq<Field>) {
    forall i | 0 <= i < |fs| :: WellFormed(fs[i].val)
  }

  lemma {:induction false} PutValues(fs: seq<Field>, k: string, v: Json)
    requires ValuesWellFormed(fs) && WellFormed(v)
    ensures ValuesWellFormed(Put(fs, k, v))
    decreases |fs|
  {
    var r := Put(fs, k, v);
    if fs == [] {
      assert r == [Field(k, v)];
    } else if fs[0].key == k {
      assert r == [Field(k, v)] + fs[1..];
      forall i | 0 <= i < |r| ensures WellFormed(r[i].val) {
        if i > 0 { assert r[i] == fs[i]; }
      }
    } else {
      var t := Put(fs[1..], k, v);
      assert r == [fs[0]] + t;
      assert ValuesWellFormed(fs[1..]) by {
        forall i | 0 <= i < |fs| - 1 ensures WellFormed(fs[1..][i].val) {
          assert fs[1..][i] == fs[i + 1];
        }
      }
      PutValues(fs[1..], k, v);
      forall i | 0 <= i < |r| ensures WellFormed(r[i].val) {
        if i > 0 { assert r[i] == t[i - 1]; }
      }
    }
  }

  /** The own properties contributed by spreading `v` (`{...v}`); null, undefined and primitives contribute none. */
  function OwnFields(v: Option<Json>): seq<Field> {
    if v.Some? && v.value.Obj? then v.value.fields else []
  }

  /** Object spread `{...a, ...b}`: the properties of `b` are assigned, in order, over those of `a`. */
  function Spread(a: seq<Field>, b: seq<Field>): seq<Field>
    decreases |b|
  {
    if b == [] then a else Spread(Put(a, b[0].key, b[0].val), b[1..])
  }

  /** Spreading well-formed objects gives a well-formed object. */
  lemma {:induction false} SpreadWellFormed(a: seq<Field>, b: seq<Field>)
    requires FieldsWellFormed(a) && FieldsWellFormed(b)
    ensures FieldsWellFormed(Spread(a, b))
    decreases |b|
  {
    if b != [] {
      assert forall i | 0 <= i < |b[1..]| :: b[1..][i] == b[i + 1];
      assert FieldsWellFormed(b[1..]);
      PutWellFormed(a, b[0].key, b[0].val);
      SpreadWellFormed(Put(a, b[0].key, b[0].val), b[1..]);
    }
  }

  /** In `{...a, ...b}` a property of `b` wins; any other property comes from `a`. */
  lemma {:induction false} SpreadFind(a: seq<Field>, b: seq<Field>, k: string)
    requires DistinctKeys(b)
    ensures Find(Spread(a, b), k) == if k in Keys(b) then Find(b, k) else Find(a, k)
    decreases |b|
  {
    if b != [] {
      assert DistinctKeys(b[1..]) by {
        assert forall i | 0 <= i < |b[1..]| :: b[1..][i] == b[i + 1];
      }
      SpreadFind(Put(a, b[0].key, b[0].val), b[1..], k);
      KeysCons(b);
      if k != b[0].key { PutOther(a, b[0].key, b[0].val, k); }
      if k == b[0].key {
        assert k !in Keys(b[1..]) by {
          forall i | 0 <= i < |b[1..]| ensures Keys(b[1..])[i] != k {
            assert b[1..][i] == b[i + 1];
          }
        }
      }
    }
  }

  // ---------------------------------------------------------------- object literals

  /**
   * An object literal `{n1: e1, n2: e2, ...}` whose properties are written in this order; a property
   * whose value is `undefined` is left out, as `JSON.stringify` and every later read would see it.
   */
  function Record(ps: seq<(string, Option<Json>)>): (o: Json)
    ensures o.Obj? && DistinctKeys(o.fields)
  {
    Obj(Assign([], ps))
  }

  function Assign(acc: seq<Field>, ps: seq<(string, Option<Json>)>): (r: seq<Field>)
    ensures DistinctKeys(acc) ==> DistinctKeys(r)
    decreases |ps|
  {
    if ps == [] then acc
    else
      var acc' := if ps[0].1.Some? then Put(acc, ps[0].0, ps[0].1.value) else acc;
      assert DistinctKeys(acc) ==> DistinctKeys(acc') by {
        if ps[0].1.Some? { PutWellFormed(acc, ps[0].0, ps[0].1.value); }
      }
      Assign(acc', ps[1..])
  }

  function Names(ps: seq<(string, Option<Json>)>): (ns: seq<string>)
    ensures |ns| == |ps|
    ensures forall i | 0 <= i < |ps| :: ns[i] == ps[i].0
  {
    if ps == [] then [] else [ps[0].0] + Names(ps[1..])
  }

  predicate DistinctNames(ps: seq<(string, Option<Json>)>) {
    forall i, j | 0 <= i < j < |ps| :: ps[i].0 != ps[j].0
  }

  /** Reading property `ps[i].0` back from the literal gives the value it was written with. */
  lemma {:induction false} AssignFind(acc: seq<Field>, ps: seq<(string, Option<Json>)>, i: nat)
    requires DistinctNames(ps) && i < |ps|
    ensures Find(Assign(acc, ps), ps[i].0) == if ps[i].1.Some? then ps[i].1 else Find(acc, ps[i].0)
    decreases |ps|
  {
    var acc' := if ps[0].1.Some? then Put(acc, ps[0].0, ps[0].1.value) else acc;
    assert DistinctNames(ps[1..]) by {
      assert forall j | 0 <= j < |ps[1..]| :: ps[1..][j] == ps[j + 1];
    }
    if i == 0 {
      AssignUntouched(acc', ps[1..], ps[0].0);
    } else {
      AssignFind(acc', ps[1..], i - 1);
      if ps[0].1.Some? && ps[i].0 != ps[0].0 { PutOther(acc, ps[0].0, ps[0].1.value, ps[i].0); }
    }
  }

  /** A property named nowhere in the literal's remaining entries is not touched by them. */
  lemma {:induction false} AssignUntouched(acc: seq<Field>, ps: seq<(string, Option<Json>)>, k: string)
    requires k !in Names(ps)
    ensures Find(Assign(acc, ps), k) == Find(acc, k)
    decreases |ps|
  {
    if ps != [] {
      assert k != ps[0].0;
      assert k !in Names(ps[1..]) by {
        forall j | 0 <= j < |ps[1..]| ensures Names(ps[1..])[j] != k {
          assert ps[1..][j] == ps[j + 1];
        }
      }
      AssignUntouched(if ps[0].1.Some? then Put(acc, ps[0].0, ps[0].1.value) else acc, ps[1..], k);
      if ps[0].1.Some? { PutOther(acc, ps[0].0, ps[0].1.value, k); }
    }
  }

  /** A literal has no property it does not name. */
  lemma RecordOmits(ps: seq<(string, Option<Json>)>, k: string)
    requires k !in Names(ps)
    ensures Find(Record(ps).fields, k) == None
  {
    AssignUntouched([], ps, k);
  }

  /** Reading a named property of a literal gives the value written for it (undefined when that was undefined). */
  lemma RecordFind(ps: seq<(string, Option<Json>)>, i: nat)
    requires DistinctNames(ps) && i < |ps|
    ensures Find(Record(ps).fields, ps[i].0) == ps[i].1
  {
    AssignFind([], ps, i);
  }

  /** A literal whose values are well formed is well formed. */
  lemma RecordWellFormed(ps: seq<(string, Option<Json>)>)
    requires forall i | 0 <= i < |ps| :: ps[i].1.Some? ==> WellFormed(ps[i].1.value)
    ensures WellFormed(Record(ps))
  {
    AssignWellFormed([], ps);
  }

  lemma {:induction false} AssignWellFormed(acc: seq<Field>, ps: seq<(string, Option<Json>)>)
    requires FieldsWellFormed(acc)
    requires forall i | 0 <= i < |ps| :: ps[i].1.Some? ==> WellFormed(ps[i].1.value)
    ensures FieldsWellFormed(Assign(acc, ps))
    decreases |ps|
  {
    if ps != [] {
      var acc' := if ps[0].1.Some? then Put(acc, ps[0].0, ps[0].1.value) else acc;
      if ps[0].1.Some? { PutWellFormed(acc, ps[0].0, ps[0].1.value); }
      assert forall i | 0 <= i < |ps[1..]| :: ps[1..][i] == ps[i + 1];
      AssignWellFormed(acc', ps[1..]);
    }
  }

  /** A property read from a well-formed object is well formed. */
  lemma GetWellFormed(o: Json, k: string)
    requires WellFormed(o)
    ensures Get(o, k).Some? ==> WellFormed(Get(o, k).value)
  {
    if o.Obj? { FindWellFormed(o.fields, k); }
  }

  lemma {:induction false} FindWellFormed(fs: seq<Field>, k: string)
    requires forall i | 0 <= i < |fs| :: WellFormed(fs[i].val)
    ensures Find(fs, k).Some? ==> WellFormed(Find(fs, k).value)
    decreases |fs|
  {
    if fs != [] && fs[0].key != k {
      assert forall i | 0 <= i < |fs[1..]| :: fs[1..][i] == fs[i + 1];
      FindWellFormed(fs[1..], k);
    }
  }

  // ---------------------------------------------------------------- well-formedness

  /** Every object, at every depth, has distinct property names (as every JavaScript object does). */
  predicate WellFormed(j: Json) {
    match j
    case Arr(items) => forall i | 0 <= i < |items| :: WellFormed(items[i])
    case Obj(fs) => FieldsWellFormed(fs)
    case _ => true
  }

  predicate FieldsWellFormed(fs: seq<Field>) {
    DistinctKeys(fs) && forall i | 0 <= i < |fs| :: WellFormed(fs[i].val)
  }

  // ---------------------------------------------------------------- reads

  /** `o.k` on a value known not to be null or undefined: only objects have properties here. */
  function Get(o: Json, k: string): Option<Json> {
    if o.Obj? then Find(o.fields, k) else None
  }

  /** Optional chaining `v?.k`: undefined when `v` is null or undefined. */
  function GetOpt(v: Option<Json>, k: string): Option<Json> {
    if v.Some? then Get(v.value, k) else None
  }

  predicate IsNullish(v: Option<Json>) {
    v.None? || v.value.Null?
  }

  /** JavaScript truthiness (`!!v`). */
  predicate Truthy(v: Option<Json>) {
    match v
    case None => false
    case Some(Null) => false
    case Some(Bool(b)) => b
    case Some(Num(n)) => n != 0
    case Some(Str(s)) => s != ""
    case Some(_) => true
  }

  /** `a || b`. */
  function Or(a: Option<Json>, b: Option<Json>): (r: Option<Json>)
    ensures Truthy(a) ==> r == a
    ensures !Truthy(a) ==> r == b
  {
    if Truthy(a) then a else b
  }

  // ---------------------------------------------------------------- conversions

  /** `String(j)`: numbers in decimal, arrays joined with commas (null elements as empty), objects as "[object Object]". */
  function JsString(j: Json): string {
    match j
    case Null => "null"
    case Bool(b) => if b then "true" else "false"
    case Num(n) => Decimal.IntToString(n)
    case Str(s) => s
    case Arr(items) => JoinItems(items)
    case Obj(_) => "[object Object]"
  }

  function JoinItems(items: seq<Json>): string
    decreases items
  {
    if items == [] then ""
    else
      (if items[0].Null? then "" else JsString(items[0]))
      + (if |items| > 1 then "," + JoinItems(items[1..]) else "")
  }

  /** `String(v)` / a template-literal hole, where `v` may be undefined. */
  function JsStringOf(v: Option<Json>): string {
    if v.Some? then JsString(v.value) else "undefined"
  }

  /** The characters JavaScript's `\s`, `trim()` and `Number()` treat as white space. */
  predicate IsJsSpace(c: char) {
    var n := c as int;
    (9 <= n <= 13) || n == 0x20 || n == 0xA0 || n == 0x1680 || (0x2000 <= n <= 0x200A)
    || n == 0x2028 || n == 0x2029 || n == 0x202F || n == 0x205F || n == 0x3000 || n == 0xFEFF
  }

  function TrimStart(s: string): (r: string)
    ensures |r| <= |s| && r == s[|s| - |r|..]
    ensures r == [] || !IsJsSpace(r[0])
  {
    if s != [] && IsJsSpace(s[0]) then TrimStart(s[1..]) else s
  }

  function TrimEnd(s: string): (r: string)
    ensures |r| <= |s| && r == s[..|r|]
    ensures r == [] || !IsJsSpace(r[|r| - 1])
  {
    if s != [] && IsJsSpace(s[|s| - 1]) then TrimEnd(s[..|s| - 1]) else s
  }

  /** `s.trim()`. */
  function Trim(s: string): string {
    TrimEnd(TrimStart(s))
  }

  /** A JavaScript number as far as the core computes with it: an integer, or NaN. */
  datatype JsNum = NaN | Int(n: int)

  /**
   * `Number(s)` for text: white space around an optionally signed run of decimal digits reads as
   * that integer, blank text as 0, everything else as NaN (including the `0x`, `0o` and `0b`
   * literals, fractions, exponents and `Infinity`, which JavaScript reads as numbers).
   */
  function NumberOfText(s: string): JsNum {
    var t := Trim(s);
    if t == [] then Int(0)
    else if t[0] in {'+', '-'} && |t| > 1 && Decimal.AllDigits(t[1..]) then
      (if t[0] == '-' then Int(-(Decimal.DigitsValue(t[1..]) as int)) else Int(Decimal.DigitsValue(t[1..])))
    else if Decimal.AllDigits(t) then Int(Decimal.DigitsValue(t))
    else NaN
  }

  /** `Number(v)`, the conversion behind `-`, `>` and `Number(...)`. */
  function ToNumber(v: Option<Json>): JsNum {
    match v
    case None => NaN
    case Some(Null) => Int(0)
    case Some(Bool(b)) => Int(if b then 1 else 0)
    case Some(Num(n)) => Int(n)
    case Some(Str(s)) => NumberOfText(s)
    case Some(j) => NumberOfText(JsString(j))
  }

  /** `Number(String(i))` is `i`: decimal text has no white space to trim and reads back exactly. */
  lemma NumberOfDecimal(i: int)
    ensures NumberOfText(Decimal.IntToString(i)) == Int(i)
  {
    DecimalUntrimmed(i);
    if i >= 0 {
      NumberOfDigits(i);
    } else {
      NumberOfNegative(i);
    }
  }

  lemma NumberOfDigits(n: nat)
    requires Trim(Decimal.IntToString(n)) == Decimal.IntToString(n)
    ensures NumberOfText(Decimal.IntToString(n)) == Int(n)
  {
    var s := Decimal.NatToString(n);
    assert Decimal.IsDigit(s[0]);
    Decimal.NatToStringValue(n);
  }

  lemma NumberOfNegative(i: int)
    requires i < 0 && Trim(Decimal.IntToString(i)) == Decimal.IntToString(i)
    ensures NumberOfText(Decimal.IntToString(i)) == Int(i)
  {
    var s, digits := Decimal.IntToString(i), Decimal.NatToString(-i);
    assert s[0] == '-' && s[1..] == digits;
    Decimal.NatToStringValue(-i);
  }

  /** Decimal text neither starts nor ends with white space. */
  lemma DecimalUntrimmed(i: int)
    ensures Trim(Decimal.IntToString(i)) == Decimal.IntToString(i)
  {
    var s := Decimal.IntToString(i);
    var digits := Decimal.NatToString(if i < 0 then -i else i);
    assert s[|s| - 1] == digits[|digits| - 1];
    assert !IsJsSpace(s[|s| - 1]);
    assert Decimal.IsDigit(s[0]) || s[0] == '-';
    assert !IsJsSpace(s[0]);
    assert TrimStart(s) == s;
    assert TrimEnd(s) == s;
  }
}
