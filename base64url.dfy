/**
 * Base64url as Node's `Buffer` handles it: `toString('base64url')` writes the URL-safe alphabet of
 * section 5 of RFC 4648 without padding, and `Buffer.from(s, 'base64url')` reads either alphabet,
 * skips any other character and stops at the first '='.
 */
module Base64Url {
  import opened Wrappers
  import opened Bytes

  /** A sextet is a number below 64. */
  predicate Sextets(ds: seq<int>) {
    forall i | 0 <= i < |ds| :: 0 <= ds[i] < 64
  }

  /** The URL-safe alphabet. */
  function Char(d: int): char
    requires 0 <= d < 64
  {
    if d < 26 then ('A' as int + d) as char
    else if d < 52 then ('a' as int + d - 26) as char
    else if d < 62 then ('0' as int + d - 52) as char
    else if d == 62 then '-'
    else '_'
  }

  predicate IsUrlSafe(c: char) {
    'A' <= c <= 'Z' || 'a' <= c <= 'z' || '0' <= c <= '9' || c == '-' || c == '_'
  }

  /** How the decoder reads a character: the URL-safe and the standard alphabets both count. */
  function SextetOf(c: char): (r: Option<int>)
    ensures r.Some? ==> 0 <= r.value < 64
  {
    if 'A' <= c <= 'Z' then Some(c as int - 'A' as int)
    else if 'a' <= c <= 'z' then Some(c as int - 'a' as int + 26)
    else if '0' <= c <= '9' then Some(c as int - '0' as int + 52)
    else if c == '-' || c == '+' then Some(62)
    else if c == '_' || c == '/' then Some(63)
    else None
  }

  /** The sextets of the bytes, most significant bits first; a final partial group is zero-filled. */
  function SextetsOf(bs: seq<byte>): (ds: seq<int>)
    ensures Sextets(ds)
    ensures |ds| == (4 * |bs| + 2) / 3
  {
    if |bs| >= 3 then
      [bs[0] / 4, bs[0] % 4 * 16 + bs[1] / 16, bs[1] % 16 * 4 + bs[2] / 64, bs[2] % 64] + SextetsOf(bs[3..])
    else if |bs| == 2 then [bs[0] / 4, bs[0] % 4 * 16 + bs[1] / 16, bs[1] % 16 * 4]
    else if |bs| == 1 then [bs[0] / 4, bs[0] % 4 * 16]
    else []
  }

  function Chars(ds: seq<int>): (s: string)
    requires Sextets(ds)
    ensures |s| == |ds|
  {
    seq(|ds|, i requires 0 <= i < |ds| => Char(ds[i]))
  }

  /**
   * `Buffer.from(bs).toString('base64url')`: four characters for every three bytes, rounded up, all
   * from the URL-safe alphabet (so no padding and nothing a URL would need to escape).
   */
  function Encode(bs: seq<byte>): (s: string)
    ensures |s| == (4 * |bs| + 2) / 3
    ensures forall i | 0 <= i < |s| :: IsUrlSafe(s[i])
  {
    Chars(SextetsOf(bs))
  }

  /** The sextets the decoder reads from `s`. */
  function Read(s: string): (ds: seq<int>)
    ensures Sextets(ds)
  {
    if s == [] || s[0] == '=' then []
    else
      match SextetOf(s[0])
      case Some(d) => [d] + Read(s[1..])
      case None => Read(s[1..])
  }

  /** Sextets back to bytes: four give three, a trailing three give two, two give one, one gives none. */
  function BytesOf(ds: seq<int>): seq<byte>
    requires Sextets(ds)
  {
    if |ds| >= 4 then
      [ds[0] * 4 + ds[1] / 16, ds[1] % 16 * 16 + ds[2] / 4, ds[2] % 4 * 64 + ds[3]] + BytesOf(ds[4..])
    else if |ds| == 3 then [ds[0] * 4 + ds[1] / 16, ds[1] % 16 * 16 + ds[2] / 4]
    else if |ds| == 2 then [ds[0] * 4 + ds[1] / 16]
    else []
  }

  /** `Buffer.from(s, 'base64url')`: never fails. */
  function Decode(s: string): seq<byte> {
    BytesOf(Read(s))
  }

  // ---------------------------------------------------------------- properties

  lemma ReadChar(d: int)
    requires 0 <= d < 64
    ensures Char(d) != '=' && SextetOf(Char(d)) == Some(d)
  {
  }

  /** The decoder reads back every character the encoder wrote. */
  lemma {:induction false} ReadChars(ds: seq<int>)
    requires Sextets(ds)
    ensures Read(Chars(ds)) == ds
  {
    if ds != [] {
      ReadChar(ds[0]);
      assert Chars(ds)[1..] == Chars(ds[1..]);
      ReadChars(ds[1..]);
      assert [ds[0]] + ds[1..] == ds;
    }
  }

  /** Regrouping the sextets gives back the bytes. */
  lemma {:induction false} BytesOfSextets(bs: seq<byte>)
    ensures BytesOf(SextetsOf(bs)) == bs
    decreases |bs|
  {
    if |bs| >= 3 {
      var ds := SextetsOf(bs);
      assert ds[4..] == SextetsOf(bs[3..]);
      BytesOfSextets(bs[3..]);
      assert bs == bs[..3] + bs[3..];
    }
  }

  /** `Buffer.from(Buffer.from(bs).toString('base64url'), 'base64url')` is `bs` again. */
  lemma DecodeEncode(bs: seq<byte>)
    ensures Decode(Encode(bs)) == bs
  {
    ReadChars(SextetsOf(bs));
    BytesOfSextets(bs);
  }
}
