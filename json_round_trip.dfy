/**
 * `JSON.parse(JSON.stringify(v))` gives back `v`, for every value whose objects have distinct
 * property names. The proof follows the parser step by step; each step lemma unfolds one
 * parser function, and the text is regrouped with small lemmas about plain strings.
 */
module JsonTextRoundTrip {
  import opened Wrappers
  import opened JsonValue
  import opened JsonText
  import Decimal

  // ---------------------------------------------------------------- plain strings

  lemma Regroup(a: string, b: string, c: string, d: string)
    ensures a + b + c + d == a + (b + c + d)
  {
  }

  lemma Nest(a: string, b: string, c: string, d: string)
    ensures a + b + c + d == a + (b + (c + d))
  {
  }

  /** A character followed by more text. */
  lemma Lead(c: char, x: string)
    ensures ([c] + x)[0] == c && ([c] + x)[1..] == x
  {
  }

  lemma AppendFirst<T>(acc: seq<T>, xs: seq<T>)
    requires xs != []
    ensures acc + [xs[0]] + xs[1..] == acc + xs
    ensures |xs| == 1 ==> acc + [xs[0]] == acc + xs
  {
    assert xs == [xs[0]] + xs[1..];
  }

  /** Text that may follow a value inside a document: nothing, a comma or a closing bracket or brace. */
  predicate Delimits(rest: string) {
    rest == [] || rest[0] == ',' || rest[0] == ']' || rest[0] == '}'
  }

  // ---------------------------------------------------------------- strings

  /** One escaped character is read back as that character, whatever follows it. */
  lemma EscapeCharStep(c: char, tail: string, x: string, r: string)
    requires ParseStringBody(tail) == Some((x, r))
    ensures ParseStringBody(EscapeChar(c) + tail) == Some(([c] + x, r))
  {
    var n := c as int;
    if c == '"' || c == '\\' || n == 8 || n == 12 || c == '\n' || c == '\r' || c == '\t' {
      var e := [EscapeChar(c)[1]];
      assert EscapeChar(c) == ['\\'] + e;
      ShortEscape(c, tail);
      BackslashStep(e, c, tail, x, r);
    } else if n < 0x20 {
      var e := ['u', '0', '0', HexDigit(n / 16), HexDigit(n % 16)];
      assert EscapeChar(c) == ['\\'] + e;
      UnicodeEscape(c, tail);
      BackslashStep(e, c, tail, x, r);
    } else {
      PlainStep(c, tail, x, r);
    }
  }

  lemma BackslashStep(e: string, c: char, tail: string, x: string, r: string)
    requires Unescape(e + tail) == Some((c, |e|))
    requires ParseStringBody(tail) == Some((x, r))
    ensures ParseStringBody(['\\'] + e + tail) == Some(([c] + x, r))
  {
    var s := ['\\'] + e + tail;
    assert s[1..] == e + tail;
    assert s[1 + |e|..] == tail;
  }

  lemma ShortEscape(c: char, tail: string)
    requires c == '"' || c == '\\' || c as int == 8 || c as int == 12 || c == '\n' || c == '\r' || c == '\t'
    ensures Unescape([EscapeChar(c)[1]] + tail) == Some((c, 1))
  {
  }

  lemma UnicodeEscape(c: char, tail: string)
    requires c as int < 0x20
    ensures Unescape(['u', '0', '0', HexDigit(c as int / 16), HexDigit(c as int % 16)] + tail) == Some((c, 5))
  {
    var n := c as int;
    var hex := ['0', '0', HexDigit(n / 16), HexDigit(n % 16)];
    var s := ['u'] + (hex + tail);
    assert ['u', '0', '0', HexDigit(n / 16), HexDigit(n % 16)] + tail == s;
    assert s[1..] == hex + tail;
    assert (hex + tail)[..4] == hex;
    assert Hex4(hex + tail) == Some(n);
  }

  lemma PlainStep(c: char, tail: string, x: string, r: string)
    requires c != '"' && c != '\\' && c as int >= 0x20
    requires ParseStringBody(tail) == Some((x, r))
    ensures ParseStringBody([c] + tail) == Some(([c] + x, r))
  {
    assert ([c] + tail)[1..] == tail;
  }

  lemma {:induction false} EscapeRoundTrip(x: string, rest: string)
    ensures ParseStringBody(Escape(x) + ['"'] + rest) == Some((x, rest))
    decreases |x|
  {
    if x == [] {
      assert Escape(x) + ['"'] + rest == ['"'] + rest;
    } else {
      var tail := Escape(x[1..]) + ['"'] + rest;
      EscapeRoundTrip(x[1..], rest);
      EscapeCharStep(x[0], tail, x[1..], rest);
      assert Escape(x) == EscapeChar(x[0]) + Escape(x[1..]);
      Regroup(EscapeChar(x[0]), Escape(x[1..]), ['"'], rest);
      assert [x[0]] + x[1..] == x;
    }
  }

  lemma QuotedRoundTrip(k: string, after: string)
    ensures (Quote(k) + after)[0] == '"'
    ensures ParseStringBody((Quote(k) + after)[1..]) == Some((k, after))
  {
    Regroup(['"'], Escape(k), ['"'], after);
    Lead('"', Escape(k) + ['"'] + after);
    EscapeRoundTrip(k, after);
  }

  // ---------------------------------------------------------------- numbers

  lemma {:induction false} DigitRunOf(d: string, rest: string)
    requires Decimal.AllDigits(d)
    requires rest == [] || !Decimal.IsDigit(rest[0])
    ensures DigitRun(d + rest) == |d|
    decreases |d|
  {
    if d == [] {
      assert d + rest == rest;
    } else {
      assert (d + rest)[1..] == d[1..] + rest;
      DigitRunOf(d[1..], rest);
    }
  }

  lemma UnsignedRoundTrip(m: nat, rest: string)
    requires Delimits(rest)
    ensures ParseUnsigned(Decimal.NatToString(m) + rest) == Some((m, rest))
  {
    var d := Decimal.NatToString(m);
    var u := d + rest;
    DigitRunOf(d, rest);
    assert u[..|d|] == d;
    assert u[|d|..] == rest;
    assert u[0] == d[0];
    Decimal.NatToStringValue(m);
  }

  lemma NumberRoundTrip(n: int, rest: string)
    requires Delimits(rest)
    ensures ParseNumber(Decimal.IntToString(n) + rest) == Some((Num(n), rest))
  {
    var m: nat := if n < 0 then -n else n;
    var d := Decimal.NatToString(m);
    UnsignedRoundTrip(m, rest);
    if n < 0 {
      Lead('-', d + rest);
      assert "-" + d + rest == ['-'] + (d + rest);
    } else {
      assert Decimal.IsDigit(d[0]);
    }
  }

  // ---------------------------------------------------------------- parser steps

  lemma ValueStepWord(word: string, v: Json, rest: string)
    requires (word, v) in {("null", Null), ("true", Bool(true)), ("false", Bool(false))}
    ensures ParseValue(word + rest) == Some((v, rest))
  {
    var s := word + rest;
    PrefixStartsWith(word, rest);
    assert s[|word|..] == rest;
    assert s[0] == word[0];
    assert ParseLiteral(s, word, v) == Some((v, rest));
  }

  lemma {:induction false} PrefixStartsWith(word: string, rest: string)
    ensures StartsWith(word + rest, word)
    decreases |word|
  {
    if word != [] {
      assert (word + rest)[1..] == word[1..] + rest;
      PrefixStartsWith(word[1..], rest);
    }
  }

  lemma ValueStepStr(x: string, rest: string)
    ensures ParseValue(Quote(x) + rest) == Some((Str(x), rest))
  {
    QuotedRoundTrip(x, rest);
  }

  lemma ValueStepMinus(s: string)
    requires s != [] && s[0] == '-'
    ensures ParseValue(s) == ParseNumber(s)
  {
  }

  lemma ValueStepDigit(s: string)
    requires s != [] && Decimal.IsDigit(s[0])
    ensures ParseValue(s) == ParseNumber(s)
  {
  }

  lemma ValueStepNum(n: int, rest: string)
    requires Delimits(rest)
    ensures ParseValue(Decimal.IntToString(n) + rest) == Some((Num(n), rest))
  {
    var m: nat := if n < 0 then -n else n;
    var d := Decimal.NatToString(m);
    assert Decimal.IsDigit(d[0]);
    var s := Decimal.IntToString(n) + rest;
    if n < 0 {
      assert s == ['-'] + (d + rest);
      ValueStepMinus(s);
    } else {
      assert s[0] == d[0];
      ValueStepDigit(s);
    }
    NumberRoundTrip(n, rest);
  }

  lemma ValueStepOpen(open: char, body: string)
    requires open == '[' || open == '{'
    ensures ParseValue([open] + body) == if open == '[' then ParseArray(body) else ParseObject(body)
  {
    Lead(open, body);
  }

  lemma ArrayStep(body: string)
    requires body != [] && !IsWs(body[0])
    ensures ParseArray(body) == if body[0] == ']' then Some((Arr([]), body[1..])) else ParseElements(body, [])
  {
  }

  lemma ObjectStep(body: string)
    requires body != [] && !IsWs(body[0])
    ensures ParseObject(body) == if body[0] == '}' then Some((Obj([]), body[1..])) else ParseMembers(body, [])
  {
  }

  lemma ElementsStep(s: string, acc: seq<Json>, v: Json, tail: string)
    requires ParseValue(s) == Some((v, tail))
    requires tail != [] && (tail[0] == ',' || tail[0] == ']')
    ensures ParseElements(s, acc) ==
      if tail[0] == ',' then ParseElements(tail[1..], acc + [v]) else Some((Arr(acc + [v]), tail[1..]))
  {
    assert SkipWs(tail) == tail;
  }

  lemma MembersStep(s: string, acc: seq<Field>, k: string, r1: string, v: Json, tail: string)
    requires s != [] && s[0] == '"' && ParseStringBody(s[1..]) == Some((k, r1))
    requires r1 != [] && r1[0] == ':' && ParseValue(r1[1..]) == Some((v, tail))
    requires tail != [] && (tail[0] == ',' || tail[0] == '}')
    ensures ParseMembers(s, acc) ==
      if tail[0] == ',' then ParseMembers(tail[1..], Put(acc, k, v)) else Some((Obj(Put(acc, k, v)), tail[1..]))
  {
    assert SkipWs(s) == s;
    assert SkipWs(r1) == r1;
    assert SkipWs(tail) == tail;
  }

  lemma MemberRoundTrip(k: string, v: Json, sv: string, tail: string, acc: seq<Field>, s: string)
    requires ParseValue(sv + tail) == Some((v, tail))
    requires tail != [] && (tail[0] == ',' || tail[0] == '}')
    requires s == Quote(k) + ([':'] + (sv + tail))
    ensures ParseMembers(s, acc) ==
      if tail[0] == ',' then ParseMembers(tail[1..], Put(acc, k, v)) else Some((Obj(Put(acc, k, v)), tail[1..]))
  {
    var afterKey := [':'] + (sv + tail);
    QuotedRoundTrip(k, afterKey);
    Lead(':', sv + tail);
    MembersStep(s, acc, k, afterKey, v, tail);
  }

  // ---------------------------------------------------------------- shapes of serialized text

  /** The first character of a serialized value says which kind of value it is. */
  lemma FirstChar(j: Json)
    ensures |Serialize(j)| > 0 && !IsWs(Serialize(j)[0])
    ensures Serialize(j)[0] !in {',', ']', '}', ':'}
  {
    if j.Num? {
      var m: nat := if j.n < 0 then -j.n else j.n;
      assert Decimal.IsDigit(Decimal.NatToString(m)[0]);
    }
  }

  /** How the text of a non-empty list of items splits after its first item. */
  lemma ItemsShape(items: seq<Json>, rest: string, s: string) returns (tail: string)
    requires items != []
    requires s == SerializeItems(items) + "]" + rest
    ensures s == Serialize(items[0]) + tail
    ensures tail != [] && tail[0] == (if |items| == 1 then ']' else ',') && Delimits(tail)
    ensures tail[1..] == if |items| == 1 then rest else SerializeItems(items[1..]) + "]" + rest
  {
    var first := Serialize(items[0]);
    var more := if |items| == 1 then "" else "," + SerializeItems(items[1..]);
    assert SerializeItems(items) == first + more;
    Regroup(first, more, "]", rest);
    tail := more + "]" + rest;
    if |items| == 1 {
      assert more + "]" == "]";
      Lead(']', rest);
    } else {
      Regroup([','], SerializeItems(items[1..]), "]", rest);
      Lead(',', SerializeItems(items[1..]) + "]" + rest);
    }
  }

  /** How the text of a non-empty property list splits around its first property. */
  lemma FieldsShape(fs: seq<Field>, rest: string, s: string) returns (tail: string)
    requires fs != []
    requires s == SerializeFields(fs) + "}" + rest
    ensures s == Quote(fs[0].key) + ([':'] + (Serialize(fs[0].val) + tail))
    ensures tail != [] && tail[0] == (if |fs| == 1 then '}' else ',') && Delimits(tail)
    ensures tail[1..] == if |fs| == 1 then rest else SerializeFields(fs[1..]) + "}" + rest
  {
    var q, sv := Quote(fs[0].key), Serialize(fs[0].val);
    var more := if |fs| == 1 then "" else "," + SerializeFields(fs[1..]);
    assert SerializeFields(fs) == q + ":" + sv + more;
    tail := more + "}" + rest;
    Regroup(q + ":" + sv, more, "}", rest);
    Nest(q, ":", sv, tail);
    if |fs| == 1 {
      assert more + "}" == "}";
      Lead('}', rest);
    } else {
      Regroup([','], SerializeFields(fs[1..]), "}", rest);
      Lead(',', SerializeFields(fs[1..]) + "}" + rest);
    }
  }

  lemma ItemsWellFormed(items: seq<Json>)
    requires items != [] && WellFormed(Arr(items))
    ensures WellFormed(items[0]) && WellFormed(Arr(items[1..]))
  {
    assert forall i | 0 <= i < |items[1..]| :: items[1..][i] == items[i + 1];
  }

  /** What is left of a property list after its first property still has distinct names, none of them read already. */
  lemma FieldsTail(fs: seq<Field>, acc: seq<Field>)
    requires fs != [] && FieldsWellFormed(fs)
    requires forall i, k | 0 <= i < |fs| && 0 <= k < |acc| :: fs[i].key != acc[k].key
    ensures WellFormed(fs[0].val) && FieldsWellFormed(fs[1..])
    ensures forall i | 0 <= i < |acc| :: acc[i].key != fs[0].key
    ensures forall i, k | 0 <= i < |fs[1..]| && 0 <= k < |acc + [fs[0]]| :: fs[1..][i].key != (acc + [fs[0]])[k].key
  {
    var fs', acc' := fs[1..], acc + [fs[0]];
    assert forall i | 0 <= i < |fs'| :: fs'[i] == fs[i + 1];
    forall i, k | 0 <= i < |fs'| && 0 <= k < |acc'|
      ensures fs'[i].key != acc'[k].key
    {
      if k == |acc| { assert acc'[k] == fs[0]; } else { assert acc'[k] == acc[k]; }
    }
  }

  // ---------------------------------------------------------------- the round trip

  lemma {:induction false} ValueRoundTrip(j: Json, rest: string)
    requires WellFormed(j) && Delimits(rest)
    ensures ParseValue(Serialize(j) + rest) == Some((j, rest))
    decreases j, 1
  {
    match j
    case Null =>
      ValueStepWord("null", Null, rest);
    case Bool(b) =>
      ValueStepWord(if b then "true" else "false", j, rest);
    case Num(n) =>
      ValueStepNum(n, rest);
    case Str(x) =>
      ValueStepStr(x, rest);
    case Arr(items) =>
      var body := SerializeItems(items) + "]" + rest;
      Regroup("[", SerializeItems(items), "]", rest);
      ValueStepOpen('[', body);
      ArrayRoundTrip(items, rest, body);
    case Obj(fs) =>
      var body := SerializeFields(fs) + "}" + rest;
      Regroup("{", SerializeFields(fs), "}", rest);
      ValueStepOpen('{', body);
      ObjectRoundTrip(fs, rest, body);
  }

  lemma {:induction false} ArrayRoundTrip(items: seq<Json>, rest: string, body: string)
    requires WellFormed(Arr(items)) && Delimits(rest)
    requires body == SerializeItems(items) + "]" + rest
    ensures ParseArray(body) == Some((Arr(items), rest))
    decreases items, 1
  {
    if items == [] {
      assert body == "]" + rest;
      Lead(']', rest);
      ArrayStep(body);
    } else {
      var tail := ItemsShape(items, rest, body);
      FirstChar(items[0]);
      assert body[0] == Serialize(items[0])[0];
      ArrayStep(body);
      ItemsRoundTrip(items, [], rest, body);
      assert [] + items == items;
    }
  }

  lemma {:induction false} ObjectRoundTrip(fs: seq<Field>, rest: string, body: string)
    requires FieldsWellFormed(fs) && Delimits(rest)
    requires body == SerializeFields(fs) + "}" + rest
    ensures ParseObject(body) == Some((Obj(fs), rest))
    decreases fs, 1
  {
    if fs == [] {
      assert body == "}" + rest;
      Lead('}', rest);
      ObjectStep(body);
    } else {
      FieldsFirstChar(fs, rest, body);
      ObjectStep(body);
      MembersRoundTrip(fs, [], rest, body);
      assert [] + fs == fs;
    }
  }

  lemma FieldsFirstChar(fs: seq<Field>, rest: string, body: string)
    requires fs != [] && body == SerializeFields(fs) + "}" + rest
    ensures body != [] && body[0] == '"'
  {
    var tail := FieldsShape(fs, rest, body);
    QuotedRoundTrip(fs[0].key, [':'] + (Serialize(fs[0].val) + tail));
  }

  lemma {:induction false} ItemsRoundTrip(items: seq<Json>, acc: seq<Json>, rest: string, s: string)
    requires items != [] && WellFormed(Arr(items))
    requires Delimits(rest) && s == SerializeItems(items) + "]" + rest
    ensures ParseElements(s, acc) == Some((Arr(acc + items), rest))
    decreases items, 0
  {
    var tail := ItemsShape(items, rest, s);
    ItemsWellFormed(items);
    ValueRoundTrip(items[0], tail);
    ElementsStep(s, acc, items[0], tail);
    AppendFirst(acc, items);
    if |items| > 1 {
      ItemsRoundTrip(items[1..], acc + [items[0]], rest, tail[1..]);
    }
  }

  lemma {:induction false} MembersRoundTrip(fs: seq<Field>, acc: seq<Field>, rest: string, s: string)
    requires fs != [] && FieldsWellFormed(fs)
    requires forall i, k | 0 <= i < |fs| && 0 <= k < |acc| :: fs[i].key != acc[k].key
    requires Delimits(rest) && s == SerializeFields(fs) + "}" + rest
    ensures ParseMembers(s, acc) == Some((Obj(acc + fs), rest))
    decreases fs, 0
  {
    var f := fs[0];
    var tail := FieldsShape(fs, rest, s);
    FieldsTail(fs, acc);
    ValueRoundTrip(f.val, tail);
    MemberRoundTrip(f.key, f.val, Serialize(f.val), tail, acc, s);
    PutFresh(acc, f.key, f.val);
    AppendFirst(acc, fs);
    if |fs| > 1 {
      MembersRoundTrip(fs[1..], acc + [f], rest, tail[1..]);
    }
  }

  /** `JSON.parse(JSON.stringify(j))` gives back `j` for every value with distinct property names. */
  lemma SerializeParse(j: Json)
    requires WellFormed(j)
    ensures Parse(Serialize(j)) == Some(j)
  {
    ValueRoundTrip(j, []);
    assert Serialize(j) + [] == Serialize(j);
  }

  /** Two well-formed values with the same text are the same value. */
  lemma SerializeInjective(a: Json, b: Json)
    requires WellFormed(a) && WellFormed(b) && Serialize(a) == Serialize(b)
    ensures a == b
  {
    SerializeParse(a);
    SerializeParse(b);
  }
}
