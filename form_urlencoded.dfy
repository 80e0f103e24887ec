/**
 * The application/x-www-form-urlencoded format of the WHATWG URL standard, as `URLSearchParams`
 * implements it: `toString()` serializes a list of name/value pairs, `new URLSearchParams(text)`
 * parses one, `get` reads the first value of a name and `set` replaces it.
 */
module FormUrlEncoded {
  import opened Wrappers
  import opened Bytes
  import Utf8

  type Pairs = seq<(string, string)>

  // ---------------------------------------------------------------- serializing

  /** ASCII letters and digits and `*-._` are written as themselves. */
  predicate Unreserved(b: byte) {
    (0x30 <= b <= 0x39) || (0x41 <= b <= 0x5A) || (0x61 <= b <= 0x7A) || b == 0x2A || b == 0x2D || b == 0x2E || b == 0x5F
  }

  function HexUpper(d: int): char
    requires 0 <= d < 16
  {
    if d < 10 then ('0' as int + d) as char else ('A' as int + d - 10) as char
  }

  /** The characters a serialization is made of. */
  predicate IsEncodedChar(c: char) {
    c as int < 0x80 && (Unreserved(c as int) || c == '+' || c == '%')
  }

  /** One byte: unreserved as itself, space as '+', anything else as '%' and two upper-case hex digits. */
  function EncodeByte(b: byte): (s: string)
    ensures 1 <= |s| && forall i | 0 <= i < |s| :: IsEncodedChar(s[i])
  {
    if Unreserved(b) then [b as char]
    else if b == 0x20 then "+"
    else ['%', HexUpper(b / 16), HexUpper(b % 16)]
  }

  function EncodeBytes(bs: seq<byte>): (s: string)
    ensures forall i | 0 <= i < |s| :: IsEncodedChar(s[i])
  {
    if bs == [] then "" else EncodeByte(bs[0]) + EncodeBytes(bs[1..])
  }

  /** A name or a value: its UTF-8 bytes, percent-encoded. */
  function EncodeText(s: string): string {
    EncodeBytes(Utf8.Encode(s))
  }

  function PairText(p: (string, string)): (s: string)
    ensures forall i | 0 <= i < |s| :: IsEncodedChar(s[i]) || s[i] == '='
  {
    var n, v := EncodeText(p.0), EncodeText(p.1);
    assert forall i | 0 <= i < |n + "=" + v| :: i < |n| ==> (n + "=" + v)[i] == n[i];
    assert forall i | 0 <= i < |n + "=" + v| :: i > |n| ==> (n + "=" + v)[i] == v[i - |n| - 1];
    n + "=" + v
  }

  /** `params.toString()`: the pairs in order, joined by '&'; nothing else but encoded text, '=' and '&' occurs. */
  function Serialize(ps: Pairs): (s: string)
    ensures forall i | 0 <= i < |s| :: IsEncodedChar(s[i]) || s[i] == '=' || s[i] == '&'
  {
    if ps == [] then ""
    else PairText(ps[0]) + (if |ps| > 1 then "&" + Serialize(ps[1..]) else "")
  }

  /** Text made only of ASCII letters, digits and `*-._`. */
  predicate Plain(s: string) {
    forall i | 0 <= i < |s| :: s[i] as int < 0x80 && Unreserved(s[i] as int)
  }

  /** Plain text is written as itself. */
  lemma {:induction false} EncodeUnreservedText(s: string)
    requires Plain(s)
    ensures EncodeText(s) == s
  {
    if s != [] {
      var bs := Utf8.Encode(s);
      assert bs == [s[0] as int] + Utf8.Encode(s[1..]);
      assert bs[1..] == Utf8.Encode(s[1..]);
      EncodeUnreservedText(s[1..]);
      assert EncodeText(s) == [s[0]] + s[1..];
    }
  }

  /** Three pairs of plain texts are written joined by '=' and '&' with no escaping. */
  lemma PlainTriple(n1: string, v1: string, n2: string, v2: string, n3: string, v3: string)
    requires Plain(n1) && Plain(v1) && Plain(n2) && Plain(v2) && Plain(n3) && Plain(v3)
    ensures Serialize([(n1, v1), (n2, v2), (n3, v3)]) == n1 + "=" + v1 + ("&" + n2 + "=" + v2 + "&" + n3 + "=") + v3
  {
    var ps := [(n1, v1), (n2, v2), (n3, v3)];
    PlainPair(n1, v1);
    PlainTail(n2, v2, n3, v3);
    assert ps[1..] == [(n2, v2), (n3, v3)];
    Regroup(n1 + "=" + v1, "&" + n2 + "=" + v2 + "&" + n3 + "=", v3);
  }

  lemma PlainTail(n2: string, v2: string, n3: string, v3: string)
    requires Plain(n2) && Plain(v2) && Plain(n3) && Plain(v3)
    ensures "&" + Serialize([(n2, v2), (n3, v3)]) == "&" + n2 + "=" + v2 + "&" + n3 + "=" + v3
  {
    SerializeTwo((n2, v2), (n3, v3));
    PlainPair(n2, v2);
    PlainPair(n3, v3);
  }

  lemma SerializeTwo(a: (string, string), b: (string, string))
    ensures Serialize([a, b]) == PairText(a) + "&" + PairText(b)
  {
    assert [a, b][1..] == [b];
  }

  lemma Regroup(x: string, y: string, z: string)
    ensures x + (y + z) == x + y + z
  {
  }

  /** A pair of plain texts is written as name, '=', value. */
  lemma PlainPair(name: string, value: string)
    requires Plain(name) && Plain(value)
    ensures PairText((name, value)) == name + "=" + value
  {
    EncodeUnreservedText(name);
    EncodeUnreservedText(value);
  }

  // ---------------------------------------------------------------- parsing

  function HexValue(b: byte): (r: Option<int>)
    ensures r.Some? ==> 0 <= r.value < 16
  {
    if 0x30 <= b <= 0x39 then Some(b - 0x30)
    else if 0x41 <= b <= 0x46 then Some(b - 0x41 + 10)
    else if 0x61 <= b <= 0x66 then Some(b - 0x61 + 10)
    else None
  }

  /** Percent-decoding: '%' and two hex digits become that byte; any other byte, a lone '%' included, stays. */
  function PercentDecode(bs: seq<byte>): seq<byte> {
    if bs == [] then []
    else if bs[0] == 0x25 && |bs| >= 3 && HexValue(bs[1]).Some? && HexValue(bs[2]).Some? then
      [HexValue(bs[1]).value * 16 + HexValue(bs[2]).value] + PercentDecode(bs[3..])
    else [bs[0]] + PercentDecode(bs[1..])
  }

  function PlusToSpace(bs: seq<byte>): (r: seq<byte>)
    ensures |r| == |bs|
  {
    seq(|bs|, i requires 0 <= i < |bs| => if bs[i] == 0x2B then 0x20 else bs[i])
  }

  /** A name or a value read back: '+' becomes a space, then percent-decoding, then lossy UTF-8 decoding. */
  function DecodeText(s: string): string {
    Utf8.Decode(PercentDecode(PlusToSpace(Utf8.Encode(s))))
  }

  /** The position of the first `c` in `s`, or `|s|` when there is none. */
  function IndexOf(s: string, c: char): (i: nat)
    ensures i <= |s| && (i < |s| ==> s[i] == c)
    ensures forall j | 0 <= j < i :: s[j] != c
  {
    if s == [] || s[0] == c then 0 else 1 + IndexOf(s[1..], c)
  }

  /** A piece splits at its first '='; without one, the whole piece is the name and the value is empty. */
  function ParsePair(piece: string): (string, string) {
    var i := IndexOf(piece, '=');
    if i < |piece| then (DecodeText(piece[..i]), DecodeText(piece[i + 1..])) else (DecodeText(piece), "")
  }

  /** The pieces between '&'s, empty ones skipped. */
  function ParsePieces(s: string): Pairs
    decreases |s|
  {
    var i := IndexOf(s, '&');
    var head := if i == 0 then [] else [ParsePair(s[..i])];
    if i < |s| then head + ParsePieces(s[i + 1..]) else head
  }

  /** `new URLSearchParams(text)`: one leading '?' is dropped first. */
  function Parse(s: string): Pairs {
    ParsePieces(if s != [] && s[0] == '?' then s[1..] else s)
  }

  // ---------------------------------------------------------------- reading and updating

  /** `params.get(name)`: the value of the first pair with that name, or null. */
  function Get(ps: Pairs, name: string): Option<string> {
    if ps == [] then None
    else if ps[0].0 == name then Some(ps[0].1)
    else Get(ps[1..], name)
  }

  /** `get(name)` finds the first pair with that name. */
  lemma {:induction false} GetFirst(ps: Pairs, name: string, i: nat)
    requires i < |ps| && ps[i].0 == name
    requires forall j | 0 <= j < i :: ps[j].0 != name
    ensures Get(ps, name) == Some(ps[i].1)
  {
    if i > 0 {
      GetFirst(ps[1..], name, i - 1);
    }
  }

  function RemoveAll(ps: Pairs, name: string): (r: Pairs)
    ensures forall i | 0 <= i < |r| :: r[i].0 != name
  {
    if ps == [] then []
    else if ps[0].0 == name then RemoveAll(ps[1..], name)
    else [ps[0]] + RemoveAll(ps[1..], name)
  }

  /**
   * `params.set(name, value)`: the first pair with that name takes the value and keeps its place,
   * later pairs with that name are removed; without one the pair is appended.
   */
  function Set(ps: Pairs, name: string, value: string): Pairs {
    if ps == [] then [(name, value)]
    else if ps[0].0 == name then [(name, value)] + RemoveAll(ps[1..], name)
    else [ps[0]] + Set(ps[1..], name, value)
  }

  /** The number of pairs with the given name. */
  function Count(ps: Pairs, name: string): nat {
    if ps == [] then 0 else (if ps[0].0 == name then 1 else 0) + Count(ps[1..], name)
  }

  // ---------------------------------------------------------------- properties

  lemma {:induction false} PlusToSpaceAppend(a: seq<byte>, b: seq<byte>)
    ensures PlusToSpace(a + b) == PlusToSpace(a) + PlusToSpace(b)
  {
  }

  /** The bytes the decoder sees for one encoded byte, followed by anything, decode to that byte first. */
  lemma DecodeByte(b: byte, rest: seq<byte>)
    ensures PercentDecode(PlusToSpace(Utf8.Encode(EncodeByte(b))) + rest) == [b] + PercentDecode(rest)
  {
    var e := EncodeByte(b);
    Utf8.EncodeAscii(e);
    var x := PlusToSpace(Utf8.Encode(e)) + rest;
    if Unreserved(b) {
      assert x[0] == b && x[1..] == rest;
    } else if b == 0x20 {
      assert x[0] == 0x20 && x[1..] == rest;
    } else {
      assert x[0] == 0x25 && x[3..] == rest;
      assert HexValue(x[1]) == Some(b / 16) && HexValue(x[2]) == Some(b % 16);
    }
  }

  lemma {:induction false} DecodeBytes(bs: seq<byte>)
    ensures PercentDecode(PlusToSpace(Utf8.Encode(EncodeBytes(bs)))) == bs
  {
    if bs != [] {
      var e, t := EncodeByte(bs[0]), EncodeBytes(bs[1..]);
      Utf8.EncodeAppend(e, t);
      PlusToSpaceAppend(Utf8.Encode(e), Utf8.Encode(t));
      DecodeByte(bs[0], PlusToSpace(Utf8.Encode(t)));
      DecodeBytes(bs[1..]);
      assert [bs[0]] + bs[1..] == bs;
    }
  }

  /** A name or value reads back as written. */
  lemma DecodeEncodeText(s: string)
    ensures DecodeText(EncodeText(s)) == s
  {
    DecodeBytes(Utf8.Encode(s));
    Utf8.DecodeEncode(s);
  }

  lemma IndexOfFirst(a: string, c: char, b: string)
    requires forall j | 0 <= j < |a| :: a[j] != c
    ensures IndexOf(a + [c] + b, c) == |a|
  {
    var s := a + [c] + b;
    assert s[|a|] == c;
    assert forall j | 0 <= j < |a| :: s[j] == a[j];
  }

  /** Neither '=' nor '&' occurs in a serialized pair except the '=' between name and value. */
  lemma PairTextShape(p: (string, string))
    ensures var n := EncodeText(p.0); PairText(p) == n + "=" + EncodeText(p.1) && '=' !in n
    ensures forall j | 0 <= j < |PairText(p)| :: PairText(p)[j] != '&'
  {
    var n, v := EncodeText(p.0), EncodeText(p.1);
    var s := PairText(p);
    forall j | 0 <= j < |s| ensures s[j] != '&' {
      if j < |n| { assert s[j] == n[j]; } else if j > |n| { assert s[j] == v[j - |n| - 1]; }
    }
  }

  lemma ParsePairText(p: (string, string))
    ensures ParsePair(PairText(p)) == p
  {
    var n, v := EncodeText(p.0), EncodeText(p.1);
    PairTextShape(p);
    IndexOfFirst(n, '=', v);
    var s := n + "=" + v;
    assert s[..|n|] == n && s[|n| + 1..] == v;
    DecodeEncodeText(p.0);
    DecodeEncodeText(p.1);
  }

  lemma ParsePiecesStep(head: string, t: string)
    requires head != [] && forall j | 0 <= j < |head| :: head[j] != '&'
    ensures ParsePieces(head + ("&" + t)) == [ParsePair(head)] + ParsePieces(t)
  {
    IndexOfFirst(head, '&', t);
    var s := head + ("&" + t);
    assert s == head + "&" + t;
    assert s[..|head|] == head && s[|head| + 1..] == t;
  }

  lemma ParsePiecesLast(head: string)
    requires head != [] && forall j | 0 <= j < |head| :: head[j] != '&'
    ensures ParsePieces(head + "") == [ParsePair(head)]
  {
    assert head + "" == head;
    assert head[..|head|] == head;
  }

  /** Parsing a serialization gives back the same pairs, in the same order. */
  lemma ParseSerialize(ps: Pairs)
    ensures Parse(Serialize(ps)) == ps
  {
    ParsePiecesSerialize(ps);
    if ps != [] {
      PairTextShape(ps[0]);
      var n := EncodeText(ps[0].0);
      assert Serialize(ps)[0] != '?' by {
        if n == [] { assert Serialize(ps)[0] == '='; } else { assert Serialize(ps)[0] == n[0]; }
      }
    }
  }

  lemma {:induction false} ParsePiecesSerialize(ps: Pairs)
    ensures ParsePieces(Serialize(ps)) == ps
  {
    if ps != [] {
      var head := PairText(ps[0]);
      PairTextShape(ps[0]);
      ParsePairText(ps[0]);
      if |ps| > 1 {
        ParsePiecesStep(head, Serialize(ps[1..]));
        ParsePiecesSerialize(ps[1..]);
        assert [ps[0]] + ps[1..] == ps;
      } else {
        ParsePiecesLast(head);
      }
    }
  }

  /** After `set`, `get` of that name gives the new value and the name occurs exactly once. */
  lemma {:induction false} SetGet(ps: Pairs, name: string, value: string)
    ensures Get(Set(ps, name, value), name) == Some(value)
    ensures Count(Set(ps, name, value), name) == 1
  {
    if ps != [] {
      if ps[0].0 == name {
        RemoveAllCount(ps[1..], name);
      } else {
        SetGet(ps[1..], name, value);
      }
    }
  }

  lemma {:induction false} RemoveAllCount(ps: Pairs, name: string)
    ensures Count(RemoveAll(ps, name), name) == 0
  {
    if ps != [] {
      RemoveAllCount(ps[1..], name);
    }
  }

  lemma {:induction false} RemoveAllGet(ps: Pairs, name: string, other: string)
    requires other != name
    ensures Get(RemoveAll(ps, name), other) == Get(ps, other)
  {
    if ps != [] {
      RemoveAllGet(ps[1..], name, other);
    }
  }

  /** `set` leaves the first value of every other name as it was. */
  lemma {:induction false} SetGetOther(ps: Pairs, name: string, value: string, other: string)
    requires other != name
    ensures Get(Set(ps, name, value), other) == Get(ps, other)
  {
    if ps != [] {
      if ps[0].0 == name {
        RemoveAllGet(ps[1..], name, other);
      } else {
        SetGetOther(ps[1..], name, value, other);
      }
    }
  }
}
