/**
 * JSON text: `JSON.stringify` (Serialize) and `JSON.parse` (Parse) on the values of JsonValue.
 * The serializer writes no white space and escapes exactly what `JSON.stringify` escapes.
 * The parser accepts white space, every escape whose code point a `char` can hold (a surrogate
 * pair included, a lone surrogate not) and integral numbers.
 */
module JsonText {
  import opened Wrappers
  import opened JsonValue
  import Decimal

  // ================================================================ serializer

  function HexDigit(d: nat): (c: char)
    requires d < 16
    ensures HexValue(c) == Some(d)
  {
    if d < 10 then (('0' as int) + d) as char else (('a' as int) + d - 10) as char
  }

  function HexValue(c: char): Option<nat> {
    if '0' <= c <= '9' then Some((c as int) - ('0' as int))
    else if 'a' <= c <= 'f' then Some((c as int) - ('a' as int) + 10)
    else if 'A' <= c <= 'F' then Some((c as int) - ('A' as int) + 10)
    else None
  }

  /** How `JSON.stringify` writes one character inside a string literal. */
  function EscapeChar(c: char): string {
    var n := c as int;
    if c == '"' then ['\\', '"']
    else if c == '\\' then ['\\', '\\']
    else if n == 8 then ['\\', 'b']
    else if n == 12 then ['\\', 'f']
    else if c == '\n' then ['\\', 'n']
    else if c == '\r' then ['\\', 'r']
    else if c == '\t' then ['\\', 't']
    else if n < 0x20 then ['\\', 'u', '0', '0', HexDigit(n / 16), HexDigit(n % 16)]
    else [c]
  }

  function Escape(s: string): string {
    if s == [] then [] else EscapeChar(s[0]) + Escape(s[1..])
  }

  function Quote(s: string): string {
    ['"'] + Escape(s) + ['"']
  }

  /** `JSON.stringify(j)`. */
  function Serialize(j: Json): string {
    match j
    case Null => "null"
    case Bool(b) => if b then "true" else "false"
    case Num(n) => Decimal.IntToString(n)
    case Str(s) => Quote(s)
    case Arr(items) => "[" + SerializeItems(items) + "]"
    case Obj(fs) => "{" + SerializeFields(fs) + "}"
  }

  function SerializeItems(items: seq<Json>): string
    decreases items
  {
    if items == [] then ""
    else Serialize(items[0]) + (if |items| == 1 then "" else "," + SerializeItems(items[1..]))
  }

  function SerializeFields(fs: seq<Field>): string
    decreases fs
  {
    if fs == [] then ""
    else Quote(fs[0].key) + ":" + Serialize(fs[0].val)
         + (if |fs| == 1 then "" else "," + SerializeFields(fs[1..]))
  }

  // ================================================================ parser

  predicate IsWs(c: char) {
    c == ' ' || c == '\t' || c == '\n' || c == '\r'
  }

  function SkipWs(s: string): (r: string)
    ensures |r| <= |s|
    ensures r == [] || !IsWs(r[0])
  {
    if s != [] && IsWs(s[0]) then SkipWs(s[1..]) else s
  }

  /** The escape after a backslash: the character it stands for and how many characters it used. */
  function Unescape(s: string): (r: Option<(char, nat)>)
    ensures r.Some? ==> 1 <= r.value.1 <= |s|
  {
    if s == [] then None
    else if s[0] == '"' then Some(('"', 1))
    else if s[0] == '\\' then Some(('\\', 1))
    else if s[0] == '/' then Some(('/', 1))
    else if s[0] == 'b' then Some((8 as char, 1))
    else if s[0] == 'f' then Some((12 as char, 1))
    else if s[0] == 'n' then Some(('\n', 1))
    else if s[0] == 'r' then Some(('\r', 1))
    else if s[0] == 't' then Some(('\t', 1))
    else if s[0] == 'u' then
      match Hex4(s[1..])
      case None => None
      case Some(u) =>
        if u < 0xD800 || u > 0xDFFF then Some((u as char, 5))
        else if u <= 0xDBFF && |s| >= 11 && s[5] == '\\' && s[6] == 'u' then
          match Hex4(s[7..])
          case Some(lo) =>
            if 0xDC00 <= lo <= 0xDFFF then Some((((u - 0xD800) * 0x400 + (lo - 0xDC00) + 0x10000) as char, 11))
            else None
          case None => None
        else None
    else None
  }

  function Hex4(s: string): (r: Option<nat>)
    ensures r.Some? ==> |s| >= 4 && r.value < 0x10000
  {
    if |s| < 4 then None
    else match (HexValue(s[0]), HexValue(s[1]), HexValue(s[2]), HexValue(s[3]))
      case (Some(a), Some(b), Some(c), Some(d)) =>
        assert a < 16 && b < 16 && c < 16 && d < 16 by {
          HexValueBound(s[0]); HexValueBound(s[1]); HexValueBound(s[2]); HexValueBound(s[3]);
        }
        Some(((a * 16 + b) * 16 + c) * 16 + d)
      case _ => None
  }

  lemma HexValueBound(c: char)
    ensures HexValue(c).Some? ==> HexValue(c).value < 16
  {
  }

  /** The characters of a string literal after its opening quote, up to and without the closing quote. */
  function ParseStringBody(s: string): (r: Option<(string, string)>)
    ensures r.Some? ==> |r.value.1| < |s|
    decreases |s|
  {
    if s == [] then None
    else if s[0] == '"' then Some(([], s[1..]))
    else if s[0] == '\\' then
      match Unescape(s[1..])
      case None => None
      case Some((c, k)) =>
        match ParseStringBody(s[1 + k..])
        case None => None
        case Some((x, rest)) => Some(([c] + x, rest))
    else if (s[0] as int) < 0x20 then None
    else
      match ParseStringBody(s[1..])
      case None => None
      case Some((x, rest)) => Some(([s[0]] + x, rest))
  }

  function DigitRun(s: string): (n: nat)
    ensures n <= |s| && Decimal.AllDigits(s[..n])
    ensures n < |s| ==> !Decimal.IsDigit(s[n])
  {
    if s != [] && Decimal.IsDigit(s[0]) then
      var n := 1 + DigitRun(s[1..]);
      assert forall i | 1 <= i < n :: s[..n][i] == s[1..][..n - 1][i - 1];
      n
    else 0
  }

  /** An integral number: an optional minus, digits without a leading zero, no fraction or exponent. */
  function ParseNumber(s: string): (r: Option<(Json, string)>)
    ensures r.Some? ==> |r.value.1| < |s|
  {
    if s != [] && s[0] == '-' then
      match ParseUnsigned(s[1..])
      case Some((v, rest)) => Some((Num(-(v as int)), rest))
      case None => None
    else
      match ParseUnsigned(s)
      case Some((v, rest)) => Some((Num(v), rest))
      case None => None
  }

  function ParseUnsigned(u: string): (r: Option<(nat, string)>)
    ensures r.Some? ==> |r.value.1| < |u|
  {
    var n := DigitRun(u);
    if n == 0 || (n > 1 && u[0] == '0') then None
    else if n < |u| && (u[n] == '.' || u[n] == 'e' || u[n] == 'E') then None
    else Some((Decimal.DigitsValue(u[..n]), u[n..]))
  }

  predicate StartsWith(s: string, word: string) {
    word == [] || (s != [] && s[0] == word[0] && StartsWith(s[1..], word[1..]))
  }

  function ParseLiteral(s: string, word: string, v: Json): (r: Option<(Json, string)>)
    requires |word| > 0
    ensures r.Some? ==> |r.value.1| < |s|
  {
    if |s| >= |word| && StartsWith(s, word) then Some((v, s[|word|..])) else None
  }

  /** One JSON value at the start of `s` (after white space), and the text after it. */
  function ParseValue(s: string): (r: Option<(Json, string)>)
    ensures r.Some? ==> |r.value.1| < |s| && WellFormed(r.value.0)
    decreases |s|, 0
  {
    var t := SkipWs(s);
    if t == [] then None
    else if t[0] == '-' || Decimal.IsDigit(t[0]) then ParseNumber(t)
    else if t[0] == 'n' then ParseLiteral(t, "null", Null)
    else if t[0] == 't' then ParseLiteral(t, "true", Bool(true))
    else if t[0] == 'f' then ParseLiteral(t, "false", Bool(false))
    else if t[0] == '"' then
      match ParseStringBody(t[1..])
      case None => None
      case Some((x, rest)) => Some((Str(x), rest))
    else if t[0] == '[' then ParseArray(t[1..])
    else if t[0] == '{' then ParseObject(t[1..])
    else None
  }

  /** The rest of an array after its opening bracket. */
  function ParseArray(s: string): (r: Option<(Json, string)>)
    ensures r.Some? ==> |r.value.1| < |s| && WellFormed(r.value.0)
    decreases |s|, 2
  {
    var t := SkipWs(s);
    if t != [] && t[0] == ']' then Some((Arr([]), t[1..])) else ParseElements(t, [])
  }

  /** Elements of an array, `acc` holding those already read. */
  function ParseElements(s: string, acc: seq<Json>): (r: Option<(Json, string)>)
    ensures r.Some? ==> |r.value.1| < |s|
    ensures r.Some? && (forall i | 0 <= i < |acc| :: WellFormed(acc[i])) ==> WellFormed(r.value.0)
    decreases |s|, 1
  {
    match ParseValue(s)
    case None => None
    case Some((v, rest)) =>
      var t := SkipWs(rest);
      if t == [] then None
      else if t[0] == ',' then ParseElements(t[1..], acc + [v])
      else if t[0] == ']' then Some((Arr(acc + [v]), t[1..]))
      else None
  }

  /** The rest of an object after its opening brace. */
  function ParseObject(s: string): (r: Option<(Json, string)>)
    ensures r.Some? ==> |r.value.1| < |s| && WellFormed(r.value.0)
    decreases |s|, 2
  {
    var t := SkipWs(s);
    if t != [] && t[0] == '}' then Some((Obj([]), t[1..])) else ParseMembers(t, [])
  }

  /** Members of an object; a repeated name keeps its first place and takes the last value, as `JSON.parse` does. */
  function ParseMembers(s: string, acc: seq<Field>): (r: Option<(Json, string)>)
    ensures r.Some? ==> |r.value.1| < |s|
    ensures r.Some? && FieldsWellFormed(acc) ==> WellFormed(r.value.0)
    decreases |s|, 1
  {
    var t := SkipWs(s);
    if t == [] || t[0] != '"' then None
    else
      match ParseStringBody(t[1..])
      case None => None
      case Some((k, r1)) =>
        var r2 := SkipWs(r1);
        if r2 == [] || r2[0] != ':' then None
        else
          match ParseValue(r2[1..])
          case None => None
          case Some((v, r3)) =>
            var r4 := SkipWs(r3);
            var acc' := Put(acc, k, v);
            assert FieldsWellFormed(acc) ==> FieldsWellFormed(acc') by { PutWellFormed(acc, k, v); }
            if r4 == [] then None
            else if r4[0] == ',' then ParseMembers(r4[1..], acc')
            else if r4[0] == '}' then Some((Obj(acc'), r4[1..]))
            else None
  }

  /** `JSON.parse(s)`: one value, surrounded only by white space. */
  function Parse(s: string): (r: Option<Json>)
    ensures r.Some? ==> WellFormed(r.value)
  {
    match ParseValue(s)
    case Some((v, rest)) => if SkipWs(rest) == [] then Some(v) else None
    case None => None
  }
}
