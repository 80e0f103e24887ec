/**
 * UTF-8 as Node's `Buffer` and the URL standard use it: `Buffer.from(s)` encodes a string, and
 * `buf.toString()` decodes bytes, replacing each maximal ill-formed subsequence by U+FFFD (the
 * WHATWG Encoding standard's UTF-8 decoder, without BOM removal).
 */
module Utf8 {
  import opened Bytes

  const Replacement: char := '\U{FFFD}'

  predicate IsContinuation(b: byte) {
    0x80 <= b <= 0xBF
  }

  /** The bytes of one scalar value. */
  function EncodeChar(c: char): (bs: seq<byte>)
    ensures 1 <= |bs| <= 4
  {
    var n := c as int;
    if n < 0x80 then [n]
    else if n < 0x800 then [0xC0 + n / 0x40, 0x80 + n % 0x40]
    else if n < 0x10000 then [0xE0 + n / 0x1000, 0x80 + n / 0x40 % 0x40, 0x80 + n % 0x40]
    else [0xF0 + n / 0x40000, 0x80 + n / 0x1000 % 0x40, 0x80 + n / 0x40 % 0x40, 0x80 + n % 0x40]
  }

  /** `Buffer.from(s)`. */
  function Encode(s: string): seq<byte> {
    if s == [] then [] else EncodeChar(s[0]) + Encode(s[1..])
  }

  function Scalar2(b0: byte, b1: byte): (n: int)
    requires 0xC2 <= b0 <= 0xDF && IsContinuation(b1)
    ensures 0x80 <= n < 0x800
  {
    (b0 - 0xC0) * 0x40 + (b1 - 0x80)
  }

  function Scalar3(b0: byte, b1: byte, b2: byte): (n: int)
    requires 0xE0 <= b0 <= 0xEF && IsContinuation(b1) && IsContinuation(b2)
    requires b0 == 0xE0 ==> b1 >= 0xA0
    requires b0 == 0xED ==> b1 <= 0x9F
    ensures 0x800 <= n < 0x10000 && !(0xD800 <= n < 0xE000)
  {
    (b0 - 0xE0) * 0x1000 + (b1 - 0x80) * 0x40 + (b2 - 0x80)
  }

  function Scalar4(b0: byte, b1: byte, b2: byte, b3: byte): (n: int)
    requires 0xF0 <= b0 <= 0xF4 && IsContinuation(b1) && IsContinuation(b2) && IsContinuation(b3)
    requires b0 == 0xF0 ==> b1 >= 0x90
    requires b0 == 0xF4 ==> b1 <= 0x8F
    ensures 0x10000 <= n < 0x110000
  {
    (b0 - 0xF0) * 0x40000 + (b1 - 0x80) * 0x1000 + (b2 - 0x80) * 0x40 + (b3 - 0x80)
  }

  /**
   * One step of the decoder: the scalar value that `bs` starts with and the number of bytes it
   * takes, or U+FFFD and the length of the ill-formed prefix (a lead byte with the continuation
   * bytes that were still acceptable).
   */
  function DecodeOne(bs: seq<byte>): (r: (char, nat))
    requires bs != []
    ensures 1 <= r.1 <= |bs|
  {
    var b0 := bs[0];
    if b0 < 0x80 then (b0 as char, 1)
    else if 0xC2 <= b0 <= 0xDF then
      if |bs| < 2 || !IsContinuation(bs[1]) then (Replacement, 1)
      else (Scalar2(b0, bs[1]) as char, 2)
    else if 0xE0 <= b0 <= 0xEF then
      var lo := if b0 == 0xE0 then 0xA0 else 0x80;
      var hi := if b0 == 0xED then 0x9F else 0xBF;
      if |bs| < 2 || !(lo <= bs[1] <= hi) then (Replacement, 1)
      else if |bs| < 3 || !IsContinuation(bs[2]) then (Replacement, 2)
      else (Scalar3(b0, bs[1], bs[2]) as char, 3)
    else if 0xF0 <= b0 <= 0xF4 then
      var lo := if b0 == 0xF0 then 0x90 else 0x80;
      var hi := if b0 == 0xF4 then 0x8F else 0xBF;
      if |bs| < 2 || !(lo <= bs[1] <= hi) then (Replacement, 1)
      else if |bs| < 3 || !IsContinuation(bs[2]) then (Replacement, 2)
      else if |bs| < 4 || !IsContinuation(bs[3]) then (Replacement, 3)
      else (Scalar4(b0, bs[1], bs[2], bs[3]) as char, 4)
    else (Replacement, 1)
  }

  /** `buf.toString()`: never fails; ill-formed input decodes to U+FFFD. */
  function Decode(bs: seq<byte>): string
    decreases |bs|
  {
    if bs == [] then []
    else
      var (c, k) := DecodeOne(bs);
      [c] + Decode(bs[k..])
  }

  // ---------------------------------------------------------------- properties

  /** The decoder reads back the scalar value an encoded character starts with, whatever follows. */
  lemma DecodeOneEncodeChar(c: char, rest: seq<byte>)
    ensures DecodeOne(EncodeChar(c) + rest) == (c, |EncodeChar(c)|)
  {
    var n := c as int;
    if n < 0x80 {
    } else if n < 0x800 {
      DecodeTwo(c, rest, EncodeChar(c) + rest);
    } else if n < 0x10000 {
      DecodeThree(c, rest, EncodeChar(c) + rest);
    } else {
      DecodeFour(c, rest, EncodeChar(c) + rest);
    }
  }

  lemma DecodeTwo(c: char, rest: seq<byte>, bs: seq<byte>)
    requires 0x80 <= c as int < 0x800 && bs == EncodeChar(c) + rest
    ensures DecodeOne(bs) == (c, 2)
  {
    var n := c as int;
    var b0, b1 := n / 0x40, n % 0x40;
    assert n == b0 * 0x40 + b1;
    assert bs[0] == 0xC0 + b0 && bs[1] == 0x80 + b1;
    assert Scalar2(bs[0], bs[1]) == n;
  }

  lemma DecodeThree(c: char, rest: seq<byte>, bs: seq<byte>)
    requires 0x800 <= c as int < 0x10000 && bs == EncodeChar(c) + rest
    ensures DecodeOne(bs) == (c, 3)
  {
    var n := c as int;
    var b0, b1, b2 := n / 0x1000, n / 0x40 % 0x40, n % 0x40;
    assert n == b0 * 0x1000 + b1 * 0x40 + b2;
    assert bs[0] == 0xE0 + b0 && bs[1] == 0x80 + b1 && bs[2] == 0x80 + b2;
    assert Scalar3(bs[0], bs[1], bs[2]) == n;
  }

  lemma DecodeFour(c: char, rest: seq<byte>, bs: seq<byte>)
    requires 0x10000 <= c as int && bs == EncodeChar(c) + rest
    ensures DecodeOne(bs) == (c, 4)
  {
    var n := c as int;
    var b0, b1, b2, b3 := n / 0x40000, n / 0x1000 % 0x40, n / 0x40 % 0x40, n % 0x40;
    SplitFour(n);
    assert bs[0] == 0xF0 + b0 && bs[1] == 0x80 + b1 && bs[2] == 0x80 + b2 && bs[3] == 0x80 + b3;
    assert Scalar4(bs[0], bs[1], bs[2], bs[3]) == n;
  }

  lemma SplitFour(n: int)
    requires 0x10000 <= n < 0x110000
    ensures var b0, b1 := n / 0x40000, n / 0x1000 % 0x40;
      && 0 <= b0 <= 4 && (b0 == 0 ==> b1 >= 0x10) && (b0 == 4 ==> b1 <= 0xF)
      && n == b0 * 0x40000 + b1 * 0x1000 + n / 0x40 % 0x40 * 0x40 + n % 0x40
  {
    var q, r := n / 0x1000, n % 0x1000;
    assert n == q * 0x1000 + r;
    assert n / 0x40000 == q / 0x40;
    assert q == q / 0x40 * 0x40 + q % 0x40;
    assert r == n / 0x40 % 0x40 * 0x40 + n % 0x40;
  }

  /** Decoding what `Buffer.from(s)` produced gives `s` back. */
  lemma {:induction false} DecodeEncode(s: string)
    ensures Decode(Encode(s)) == s
  {
    if s != [] {
      var e := EncodeChar(s[0]);
      var rest := Encode(s[1..]);
      DecodeOneEncodeChar(s[0], rest);
      assert (e + rest)[|e|..] == rest;
      DecodeEncode(s[1..]);
      assert [s[0]] + s[1..] == s;
    }
  }

  /** Encoding distributes over concatenation. */
  lemma {:induction false} EncodeAppend(a: string, b: string)
    ensures Encode(a + b) == Encode(a) + Encode(b)
  {
    if a != [] {
      assert (a + b)[0] == a[0];
      assert (a + b)[1..] == a[1..] + b;
      EncodeAppend(a[1..], b);
      var e, x, y := EncodeChar(a[0]), Encode(a[1..]), Encode(b);
      assert Encode(a + b) == e + (x + y);
      assert e + (x + y) == (e + x) + y;
    } else {
      assert a + b == b;
    }
  }

  predicate IsAscii(s: string) {
    forall i | 0 <= i < |s| :: s[i] as int < 0x80
  }

  /** ASCII text encodes as its character codes, one byte each. */
  lemma {:induction false} EncodeAscii(s: string)
    requires IsAscii(s)
    ensures Encode(s) == seq(|s|, i requires 0 <= i < |s| => Ascii(s[i]))
  {
    if s != [] {
      EncodeAscii(s[1..]);
    }
  }
}
