/**
 * The URL class of the WHATWG URL standard, for URLs with an authority (`scheme://host/...`):
 * `new URL(s)` parses or throws, `hostname` / `pathname` read components, `href` / `toString()`
 * serialize, and `searchParams.set` rewrites the query.
 *
 * The parser follows the basic URL parser for absolute URLs with an authority: surrounding C0
 * controls and spaces are trimmed and TAB, LF and CR removed; for special schemes any run of '/'
 * and '\' introduces the authority, '\' also ends it and separates path segments; userinfo is split
 * into username and password at its first ':'; every component is percent-encoded with its own
 * encode set. Inputs it does not model it refuses (`None`): hosts needing IDNA, punycode labels,
 * IPv4 forms other than four decimal octets, percent-encoded hosts, paths with dot segments, the
 * `file` scheme and URLs without an authority.
 */
module WhatwgUrl {
  import opened Wrappers
  import opened Bytes
  import Decimal
  import FormUrlEncoded
  import Utf8

  datatype Url = Url(
    scheme: string,
    username: string,
    password: string,
    host: string,
    port: Option<nat>,
    path: string,
    query: Option<string>,
    fragment: Option<string>)

  // ---------------------------------------------------------------- characters

  predicate IsAlpha(c: char) {
    'a' <= c <= 'z' || 'A' <= c <= 'Z'
  }

  predicate IsSchemeChar(c: char) {
    IsAlpha(c) || '0' <= c <= '9' || c == '+' || c == '-' || c == '.'
  }

  predicate ValidScheme(s: string) {
    s != [] && IsAlpha(s[0]) && forall i | 0 <= i < |s| :: IsSchemeChar(s[i])
  }

  function LowerChar(c: char): char {
    if 'A' <= c <= 'Z' then (c as int + 32) as char else c
  }

  /** ASCII lower-casing. */
  function Lower(s: string): (r: string)
    ensures |r| == |s|
  {
    seq(|s|, i requires 0 <= i < |s| => LowerChar(s[i]))
  }

  predicate IsLower(s: string) {
    forall i | 0 <= i < |s| :: !('A' <= s[i] <= 'Z')
  }

  /** Schemes with a default port, whose host is required and lower-cased, and whose path is never empty. */
  predicate IsSpecial(scheme: string) {
    scheme in {"http", "https", "ws", "wss", "ftp"}
  }

  function DefaultPort(scheme: string): Option<nat> {
    if scheme == "http" || scheme == "ws" then Some(80)
    else if scheme == "https" || scheme == "wss" then Some(443)
    else if scheme == "ftp" then Some(21)
    else None
  }

  /** Printable ASCII other than space: what every serialized URL is made of. */
  predicate Visible(c: char) {
    '!' <= c <= '~'
  }

  predicate AllVisible(s: string) {
    forall i | 0 <= i < |s| :: Visible(s[i])
  }

  /** Code points a host may not contain: the forbidden domain code points, and non-ASCII (IDNA is not modelled). */
  predicate ForbiddenHostChar(c: char) {
    c as int <= 0x20 || c as int >= 0x7F || c in {'#', '%', '/', ':', '<', '>', '?', '@', '[', '\\', ']', '^', '|'}
  }

  predicate HostChars(host: string) {
    forall i | 0 <= i < |host| :: !ForbiddenHostChar(host[i])
  }

  predicate NoneOf(s: string, cs: set<char>) {
    forall i | 0 <= i < |s| :: s[i] !in cs
  }

  /** The position of the first character of `s` in `cs`, or `|s|`. */
  function IndexOfAny(s: string, cs: set<char>): (i: nat)
    ensures i <= |s| && (i < |s| ==> s[i] in cs)
    ensures forall j | 0 <= j < i :: s[j] !in cs
  {
    if s == [] || s[0] in cs then 0 else 1 + IndexOfAny(s[1..], cs)
  }

  /** The position of the last `c` in `s`. */
  function LastIndexOf(s: string, c: char): (r: Option<nat>)
    ensures r.Some? ==> r.value < |s| && s[r.value] == c && NoneOf(s[r.value + 1..], {c})
    ensures r.None? ==> NoneOf(s, {c})
  {
    if s == [] then None
    else if s[|s| - 1] == c then Some(|s| - 1)
    else
      var r := LastIndexOf(s[..|s| - 1], c);
      assert r.Some? ==> s[r.value + 1..] == s[..|s| - 1][r.value + 1..] + [s[|s| - 1]];
      assert r.None? ==> s == s[..|s| - 1] + [s[|s| - 1]];
      r
  }

  // ---------------------------------------------------------------- input clean-up

  /** Leading C0 controls and spaces removed. */
  function TrimStart(s: string): string {
    if s != [] && s[0] <= ' ' then TrimStart(s[1..]) else s
  }

  /** Trailing C0 controls and spaces removed. */
  function TrimEnd(s: string): string {
    if s != [] && s[|s| - 1] <= ' ' then TrimEnd(s[..|s| - 1]) else s
  }

  predicate IsTabOrNewline(c: char) {
    c == '\t' || c == '\n' || c == '\r'
  }

  /** Every TAB, LF and CR removed. */
  function RemoveTabNewline(s: string): string {
    if s == [] then [] else (if IsTabOrNewline(s[0]) then [] else [s[0]]) + RemoveTabNewline(s[1..])
  }

  /** The first steps of the basic URL parser. */
  function Clean(s: string): string {
    RemoveTabNewline(TrimEnd(TrimStart(s)))
  }

  // ---------------------------------------------------------------- percent-encoding

  /** The encode sets of the URL standard, one per component. */
  datatype EncodeSet = FragmentSet | QuerySet | SpecialQuerySet | PathSet | UserinfoSet

  /** C0 controls and everything above '~' are in every set; each set adds its own ASCII characters. */
  predicate InSet(es: EncodeSet, c: char) {
    || c < ' ' || c > '~'
    || match es
       case FragmentSet => c in {' ', '"', '<', '>', '`'}
       case QuerySet => c in {' ', '"', '#', '<', '>'}
       case SpecialQuerySet => c in {' ', '"', '#', '<', '>', '\''}
       case PathSet => c in {' ', '"', '#', '<', '>', '?', '`', '{', '}'}
       case UserinfoSet => c in {' ', '"', '#', '<', '>', '?', '`', '{', '}', '/', ':', ';', '=', '@', '[', '\\', ']', '^', '|'}
  }

  /** Text in which nothing of the set is left to encode. */
  predicate Clear(es: EncodeSet, s: string) {
    forall i | 0 <= i < |s| :: !InSet(es, s[i])
  }

  /** The characters a percent-encoded byte is written with. */
  predicate IsPercentChar(c: char) {
    c == '%' || '0' <= c <= '9' || 'A' <= c <= 'F'
  }

  /** Bytes as '%' and two upper-case hex digits each. */
  function PercentBytes(bs: seq<byte>): (s: string)
    ensures forall i | 0 <= i < |s| :: IsPercentChar(s[i])
  {
    if bs == [] then ""
    else ['%', FormUrlEncoded.HexUpper(bs[0] / 16), FormUrlEncoded.HexUpper(bs[0] % 16)] + PercentBytes(bs[1..])
  }

  /** One code point: itself outside the set, its UTF-8 bytes percent-encoded inside it. */
  function EncodeChar(es: EncodeSet, c: char): (s: string)
    ensures forall i | 0 <= i < |s| :: !InSet(es, s[i]) && (s[i] == c || IsPercentChar(s[i]))
  {
    if InSet(es, c) then PercentBytes(Utf8.EncodeChar(c)) else [c]
  }

  /** Percent-encoding of a whole component with its set: nothing of the set is left. */
  function Encode(es: EncodeSet, s: string): (r: string)
    ensures Clear(es, r)
  {
    if s == [] then ""
    else
      var h, t := EncodeChar(es, s[0]), Encode(es, s[1..]);
      assert forall i | |h| <= i < |h + t| :: (h + t)[i] == t[i - |h|];
      h + t
  }

  /** For special URLs a '\' in the path is a '/'. */
  function Slashes(s: string): (r: string)
    ensures |r| == |s| && NoneOf(r, {'\\'})
    ensures forall i | 0 <= i < |s| :: r[i] == (if s[i] == '\\' then '/' else s[i])
  {
    seq(|s|, i requires 0 <= i < |s| => if s[i] == '\\' then '/' else s[i])
  }

  // ---------------------------------------------------------------- hosts

  predicate IsHexDigit(c: char) {
    '0' <= c <= '9' || 'a' <= c <= 'f' || 'A' <= c <= 'F'
  }

  /** A label the IPv4 number parser takes for a number: decimal digits, or "0x" and hex digits. */
  predicate NumericLabel(l: string) {
    || (l != [] && Decimal.AllDigits(l))
    || (|l| >= 2 && l[0] == '0' && (l[1] == 'x' || l[1] == 'X') && forall i | 2 <= i < |l| :: IsHexDigit(l[i]))
  }

  /** The last label of a host, one trailing '.' ignored. */
  function LastLabel(h: string): string {
    var t := if h != [] && h[|h| - 1] == '.' then h[..|h| - 1] else h;
    match LastIndexOf(t, '.')
    case Some(k) => t[k + 1..]
    case None => t
  }

  /** The "ends in a number" test that sends a host to the IPv4 parser. */
  predicate EndsInNumber(h: string) {
    NumericLabel(LastLabel(h))
  }

  /** An octet written in decimal without leading zeros. */
  predicate DecimalOctet(l: string) {
    l != [] && Decimal.AllDigits(l) && (l[0] != '0' || |l| == 1) && Decimal.DigitsValue(l) <= 255
  }

  /** `n` decimal octets joined by '.': the form the IPv4 serializer writes, which parses to itself. */
  predicate DottedOctets(h: string, n: nat) {
    var k := FormUrlEncoded.IndexOf(h, '.');
    DecimalOctet(h[..k]) && if n <= 1 then k == |h| else k < |h| && DottedOctets(h[k + 1..], n - 1)
  }

  /** Some label starts with "xn--" (a punycode label, which IDNA would decode and check). */
  predicate HasAceLabel(h: string) {
    var k := FormUrlEncoded.IndexOf(h, '.');
    (k >= 4 && h[..4] == "xn--") || (k < |h| && HasAceLabel(h[k + 1..]))
  }

  /**
   * The hosts the parser produces: no forbidden code point; for special schemes non-empty,
   * lower-case, an IPv4 address only in dotted-decimal form and no punycode label.
   */
  predicate ValidHost(scheme: string, h: string) {
    && HostChars(h)
    && (IsSpecial(scheme) ==> h != [] && IsLower(h) && (EndsInNumber(h) ==> DottedOctets(h, 4)) && !HasAceLabel(h))
  }

  /** A host: lower-cased for special schemes; anything outside `ValidHost` fails. */
  function ParseHost(scheme: string, raw: string): (r: Option<string>)
    ensures r.Some? ==> ValidHost(scheme, r.value)
  {
    var h := if IsSpecial(scheme) then Lower(raw) else raw;
    if ValidHost(scheme, h) then Some(h) else None
  }

  // ---------------------------------------------------------------- parsing

  /** The userinfo before the last '@' (none without one), and the host and port after it. */
  function SplitUserinfo(a: string): (Option<string>, string) {
    match LastIndexOf(a, '@')
    case Some(k) => (Some(a[..k]), a[k + 1..])
    case None => (None, a)
  }

  /** Username before the first ':', password after it. */
  function SplitCredentials(ui: string): (string, string) {
    var k := FormUrlEncoded.IndexOf(ui, ':');
    if k < |ui| then (ui[..k], ui[k + 1..]) else (ui, "")
  }

  /** The host before the first ':', and the port text after it (none without one). */
  function SplitPort(hp: string): (string, Option<string>) {
    var k := FormUrlEncoded.IndexOf(hp, ':');
    if k < |hp| then (hp[..k], Some(hp[k + 1..])) else (hp, None)
  }

  /** A port: digits up to 65535; an empty port and the scheme's default port are both no port. */
  function ParsePort(scheme: string, text: string): Option<Option<nat>> {
    if !Decimal.AllDigits(text) then None
    else if text == [] then Some(None)
    else
      var p := Decimal.DigitsValue(text);
      if p > 65535 then None
      else if DefaultPort(scheme) == Some(p) then Some(None)
      else Some(Some(p))
  }

  /**
   * Username, password, host and port from the authority. Credentials or a port without a host
   * fail, as the standard's host-missing errors do.
   */
  function ParseAuthority(scheme: string, a: string): Option<(string, string, string, Option<nat>)> {
    var (ui, hostPort) := SplitUserinfo(a);
    var (rawHost, portText) := SplitPort(hostPort);
    if ui.Some? && hostPort == [] then None
    else if portText.Some? && rawHost == [] then None
    else match (ParseHost(scheme, rawHost), ParsePort(scheme, portText.GetOr("")))
      case (Some(host), Some(port)) =>
        var (user, pass) := SplitCredentials(ui.GetOr(""));
        Some((Encode(UserinfoSet, user), Encode(UserinfoSet, pass), host, port))
      case _ => None
  }

  /** The text before the first '#', and the fragment after it. */
  function SplitFragment(t: string): (string, Option<string>) {
    var f := FormUrlEncoded.IndexOf(t, '#');
    if f < |t| then (t[..f], Some(t[f + 1..])) else (t, None)
  }

  /** The path before the first '?', and the query after it. */
  function SplitQuery(t: string): (string, Option<string>) {
    var q := FormUrlEncoded.IndexOf(t, '?');
    if q < |t| then (t[..q], Some(t[q + 1..])) else (t, None)
  }

  /** Path, query and fragment from what follows the authority. */
  function SplitTail(t: string): (string, Option<string>, Option<string>) {
    var (beforeHash, fragment) := SplitFragment(t);
    var (path, query) := SplitQuery(beforeHash);
    (path, query, fragment)
  }

  /** The scheme before the first ':', lower-cased, and the text after it. */
  function SplitScheme(s: string): Option<(string, string)> {
    var i := FormUrlEncoded.IndexOf(s, ':');
    if i == |s| || !ValidScheme(s[..i]) then None else Some((Lower(s[..i]), s[i + 1..]))
  }

  /** The characters that end an authority: '\' too for special schemes. */
  function AuthorityEnd(scheme: string): set<char> {
    if IsSpecial(scheme) then {'/', '\\', '?', '#'} else {'/', '?', '#'}
  }

  /** The path, '\' read as '/' for special schemes, percent-encoded; an empty special path is "/". */
  function PathOf(scheme: string, raw: string): string {
    if !IsSpecial(scheme) then Encode(PathSet, raw)
    else if raw == [] then "/"
    else Encode(PathSet, Slashes(raw))
  }

  function QuerySetOf(scheme: string): EncodeSet {
    if IsSpecial(scheme) then SpecialQuerySet else QuerySet
  }

  /** A single-dot or double-dot path segment, also with its dots percent-encoded. */
  predicate IsDotSegment(seg: string) {
    Lower(seg) in {".", "%2e", "..", ".%2e", "%2e.", "%2e%2e"}
  }

  /** Some '/'-separated segment of the path is a dot segment (which the standard would remove). */
  predicate HasDotSegment(path: string) {
    var k := FormUrlEncoded.IndexOf(path, '/');
    IsDotSegment(path[..k]) || (k < |path| && HasDotSegment(path[k + 1..]))
  }

  /** Lower-case letters and '/' only. */
  predicate PlainPathChars(p: string) {
    forall i | 0 <= i < |p| :: 'a' <= p[i] <= 'z' || p[i] == '/'
  }

  /** A path of lower-case letters and '/' needs no encoding and has no dot segment. */
  lemma {:induction false} PlainPath(p: string)
    requires PlainPathChars(p)
    ensures Clear(PathSet, p) && NoneOf(p, {'\\'}) && !HasDotSegment(p)
    decreases |p|
  {
    var k := FormUrlEncoded.IndexOf(p, '/');
    var seg := p[..k];
    if seg != [] {
      assert Lower(seg)[0] == seg[0] && 'a' <= seg[0] <= 'z';
    }
    assert !IsDotSegment(seg);
    if k < |p| {
      PlainPath(p[k + 1..]);
    }
  }

  /** Lower-case letters and '.' only. */
  predicate PlainHostChars(h: string) {
    forall i | 0 <= i < |h| :: 'a' <= h[i] <= 'z' || h[i] == '.'
  }

  /** A host name of lower-case letters and '.' holds no forbidden code point, is already lower-case and has no punycode label. */
  lemma {:induction false} PlainHost(h: string)
    requires PlainHostChars(h)
    ensures HostChars(h) && IsLower(h) && !HasAceLabel(h)
    decreases |h|
  {
    var k := FormUrlEncoded.IndexOf(h, '.');
    if k >= 4 {
      assert h[..4][2] == h[2] != '-';
    }
    if k < |h| {
      PlainHost(h[k + 1..]);
    }
  }

  /** A host name of lower-case letters and '.' that does not end in '.' does not end in a number. */
  lemma PlainHostName(h: string)
    requires PlainHostChars(h) && h != [] && h[|h| - 1] != '.'
    ensures !EndsInNumber(h)
  {
    var l := LastLabel(h);
    match LastIndexOf(h, '.')
    case Some(k) =>
      assert l == h[k + 1..] && k + 1 < |h|;
      assert l[0] == h[k + 1] != '.';
    case None =>
      assert l == h;
  }

  /** What follows the slashes after "scheme:": the authority, then path, query and fragment. */
  function ParseAfterSlashes(scheme: string, rest: string): Option<Url> {
    var e := IndexOfAny(rest, AuthorityEnd(scheme));
    match ParseAuthority(scheme, rest[..e])
    case None => None
    case Some((username, password, host, port)) =>
      var (rawPath, rawQuery, rawFragment) := SplitTail(rest[e..]);
      var path := PathOf(scheme, rawPath);
      if HasDotSegment(path) then None
      else
        var query := if rawQuery.Some? then Some(Encode(QuerySetOf(scheme), rawQuery.value)) else None;
        var fragment := if rawFragment.Some? then Some(Encode(FragmentSet, rawFragment.value)) else None;
        Some(Url(scheme, username, password, host, port, path, query, fragment))
  }

  /** Any run of '/' and '\' removed from the front. */
  function SkipSlashes(s: string): string {
    if s != [] && (s[0] == '/' || s[0] == '\\') then SkipSlashes(s[1..]) else s
  }

  /**
   * `new URL(s)`: `None` where the constructor throws a TypeError, and for the inputs this model
   * leaves out. A special scheme may be followed by any run of '/' and '\' (none included); any
   * other scheme needs "//".
   */
  function Parse(s: string): Option<Url> {
    match SplitScheme(Clean(s))
    case None => None
    case Some((scheme, after)) =>
      if scheme == "file" then None
      else if IsSpecial(scheme) then ParseAfterSlashes(scheme, SkipSlashes(after))
      else if |after| < 2 || after[0] != '/' || after[1] != '/' then None
      else ParseAfterSlashes(scheme, after[2..])
  }

  // ---------------------------------------------------------------- serializing and updating

  function PortText(port: Option<nat>): string {
    if port.Some? then ":" + Decimal.NatToString(port.value) else ""
  }

  /** Userinfo is written only when there are credentials, the password only when it is non-empty. */
  function UserinfoText(u: Url): string {
    u.username + (if u.password == [] then "" else ":" + u.password)
  }

  function AuthorityText(u: Url): string {
    var hostPort := u.host + PortText(u.port);
    if u.username == [] && u.password == [] then hostPort else UserinfoText(u) + "@" + hostPort
  }

  function TailText(u: Url): string {
    var beforeHash := u.path + (if u.query.Some? then "?" + u.query.value else "");
    beforeHash + (if u.fragment.Some? then "#" + u.fragment.value else "")
  }

  /** `url.href` / `url.toString()`. */
  function Href(u: Url): string {
    u.scheme + "://" + AuthorityText(u) + TailText(u)
  }

  /** `url.searchParams`: the query parsed as form data (no '?' stripping: the query excludes it). */
  function SearchParams(u: Url): FormUrlEncoded.Pairs {
    FormUrlEncoded.ParsePieces(u.query.GetOr(""))
  }

  /** `url.searchParams.set(name, value)`: the query becomes the serialization of the updated list. */
  function SetSearchParam(u: Url, name: string, value: string): (r: Url)
    ensures r == u.(query := r.query)
  {
    u.(query := Some(FormUrlEncoded.Serialize(FormUrlEncoded.Set(SearchParams(u), name, value))))
  }

  // ---------------------------------------------------------------- properties

  /** What `Parse` produces: percent-encoded components that cannot be confused with one another when serialized. */
  predicate Valid(u: Url) {
    && ValidScheme(u.scheme) && IsLower(u.scheme) && u.scheme != "file"
    && Clear(UserinfoSet, u.username) && Clear(UserinfoSet, u.password)
    && ValidHost(u.scheme, u.host)
    && (u.host == [] ==> u.username == [] && u.password == [] && u.port.None?)
    && (u.port.Some? ==> u.port.value <= 65535 && DefaultPort(u.scheme) != u.port)
    && Clear(PathSet, u.path) && (u.path == [] || u.path[0] == '/') && !HasDotSegment(u.path)
    && (IsSpecial(u.scheme) ==> u.path != [] && NoneOf(u.path, {'\\'}))
    && (u.query.Some? ==> Clear(QuerySetOf(u.scheme), u.query.value))
    && (u.fragment.Some? ==> Clear(FragmentSet, u.fragment.value))
  }

  lemma LowerIdem(s: string)
    requires IsLower(s)
    ensures Lower(s) == s
  {
  }

  lemma LowerValid(s: string)
    requires ValidScheme(s)
    ensures ValidScheme(Lower(s)) && IsLower(Lower(s))
  {
  }

  lemma IndexOfAnyFirst(a: string, cs: set<char>, t: string)
    requires NoneOf(a, cs) && (t == [] || t[0] in cs)
    ensures IndexOfAny(a + t, cs) == |a|
  {
    var s := a + t;
    assert forall j | 0 <= j < |a| :: s[j] == a[j];
    assert t != [] ==> s[|a|] == t[0];
  }

  lemma LastIndexOfAt(a: string, c: char, b: string)
    requires NoneOf(b, {c})
    ensures LastIndexOf(a + [c] + b, c) == Some(|a|)
  {
    var s := a + [c] + b;
    assert s[|a|] == c;
    assert forall j | |a| < j < |s| :: s[j] == b[j - |a| - 1];
  }

  // ------------------------------------------------ clean-up and encoding leave serialized text alone

  lemma {:induction false} RemoveTabNewlineVisible(s: string)
    requires AllVisible(s)
    ensures RemoveTabNewline(s) == s
  {
    if s != [] {
      RemoveTabNewlineVisible(s[1..]);
      assert s == [s[0]] + s[1..];
    }
  }

  /** Text made only of visible characters goes through the clean-up steps unchanged. */
  lemma CleanVisible(s: string)
    requires AllVisible(s)
    ensures Clean(s) == s
  {
    assert TrimStart(s) == s;
    assert TrimEnd(s) == s;
    RemoveTabNewlineVisible(s);
  }

  lemma VisibleAppend(a: string, b: string)
    requires AllVisible(a) && AllVisible(b)
    ensures AllVisible(a + b)
  {
    assert forall i | |a| <= i < |a + b| :: (a + b)[i] == b[i - |a|];
  }

  /** Nothing outside an encode set is a control, a space or non-ASCII. */
  lemma ClearVisible(es: EncodeSet, s: string)
    requires Clear(es, s)
    ensures AllVisible(s)
  {
    forall i | 0 <= i < |s| ensures Visible(s[i]) {
      assert !InSet(es, s[i]);
    }
  }

  /** Text with nothing of the set in it is its own percent-encoding. */
  lemma {:induction false} EncodeClear(es: EncodeSet, s: string)
    requires Clear(es, s)
    ensures Encode(es, s) == s
  {
    if s != [] {
      EncodeClear(es, s[1..]);
      assert s == [s[0]] + s[1..];
    }
  }

  /** Encoding writes a character only as itself or with '%' and hex digits. */
  lemma {:induction false} EncodeKeepsOut(es: EncodeSet, s: string, c: char)
    requires NoneOf(s, {c}) && !IsPercentChar(c)
    ensures NoneOf(Encode(es, s), {c})
  {
    if s != [] {
      EncodeKeepsOut(es, s[1..], c);
      var h, t := EncodeChar(es, s[0]), Encode(es, s[1..]);
      assert forall i | |h| <= i < |h + t| :: (h + t)[i] == t[i - |h|];
    }
  }

  /** A first character outside the set stays first. */
  lemma EncodeHead(es: EncodeSet, s: string)
    requires s != [] && !InSet(es, s[0])
    ensures Encode(es, s) != [] && Encode(es, s)[0] == s[0]
  {
  }

  lemma SlashesNone(s: string)
    requires NoneOf(s, {'\\'})
    ensures Slashes(s) == s
  {
  }

  // ------------------------------------------------ the authority reads back

  lemma SplitUserinfoText(u: Url, hostPort: string)
    requires NoneOf(hostPort, {'@'}) && Clear(UserinfoSet, u.username) && Clear(UserinfoSet, u.password)
    ensures var a := if u.username == [] && u.password == [] then hostPort else UserinfoText(u) + "@" + hostPort;
      SplitUserinfo(a) == (if u.username == [] && u.password == [] then None else Some(UserinfoText(u)), hostPort)
  {
    if u.username != [] || u.password != [] {
      var ui := UserinfoText(u);
      var a := ui + "@" + hostPort;
      LastIndexOfAt(ui, '@', hostPort);
      assert a[..|ui|] == ui && a[|ui| + 1..] == hostPort;
    }
  }

  lemma SplitCredentialsText(u: Url)
    requires Clear(UserinfoSet, u.username)
    ensures SplitCredentials(UserinfoText(u)) == (u.username, u.password)
  {
    var ui := UserinfoText(u);
    assert forall j | 0 <= j < |u.username| :: u.username[j] != ':' by {
      forall j | 0 <= j < |u.username| ensures u.username[j] != ':' { assert !InSet(UserinfoSet, u.username[j]); }
    }
    if u.password == [] {
      assert ui == u.username;
    } else {
      FormUrlEncoded.IndexOfFirst(u.username, ':', u.password);
      assert ui == u.username + [':'] + u.password;
      assert ui[..|u.username|] == u.username && ui[|u.username| + 1..] == u.password;
    }
  }

  lemma SplitPortText(host: string, port: Option<nat>)
    requires NoneOf(host, {':'})
    ensures SplitPort(host + PortText(port)) == (host, if port.Some? then Some(Decimal.NatToString(port.value)) else None)
  {
    var hp := host + PortText(port);
    assert forall j | 0 <= j < |host| :: host[j] != ':';
    if port.Some? {
      var digits := Decimal.NatToString(port.value);
      assert hp == host + [':'] + digits;
      FormUrlEncoded.IndexOfFirst(host, ':', digits);
      assert hp[..|host|] == host && hp[|host| + 1..] == digits;
    } else {
      assert hp == host;
    }
  }

  lemma ParsePortText(scheme: string, port: Option<nat>)
    requires port.Some? ==> port.value <= 65535 && DefaultPort(scheme) != port
    ensures ParsePort(scheme, if port.Some? then Decimal.NatToString(port.value) else "") == Some(port)
  {
    if port.Some? {
      Decimal.NatToStringValue(port.value);
    }
  }

  lemma ParseHostText(scheme: string, host: string)
    requires ValidHost(scheme, host)
    ensures ParseHost(scheme, host) == Some(host)
  {
    if IsSpecial(scheme) { LowerIdem(host); }
  }

  /** A host and port hold none of the characters that end or split an authority, and only visible ones. */
  lemma HostPortDelimiters(host: string, port: Option<nat>)
    requires HostChars(host)
    ensures NoneOf(host + PortText(port), {'@', '/', '\\', '?', '#'})
    ensures AllVisible(host + PortText(port))
  {
    var hostPort := host + PortText(port);
    forall i | 0 <= i < |hostPort| ensures hostPort[i] !in {'@', '/', '\\', '?', '#'} && Visible(hostPort[i]) {
      if i < |host| {
        assert hostPort[i] == host[i] && !ForbiddenHostChar(host[i]);
      } else {
        var digits := Decimal.NatToString(port.value);
        assert hostPort[i] == (":" + digits)[i - |host|];
        assert i > |host| ==> Decimal.IsDigit(digits[i - |host| - 1]);
      }
    }
  }

  /** Serialized userinfo holds no delimiter and only visible characters. */
  lemma UserinfoDelimiters(u: Url)
    requires Clear(UserinfoSet, u.username) && Clear(UserinfoSet, u.password)
    ensures NoneOf(UserinfoText(u), {'@', '/', '\\', '?', '#'})
    ensures AllVisible(UserinfoText(u))
  {
    var ui := UserinfoText(u);
    forall i | 0 <= i < |ui| ensures ui[i] !in {'@', '/', '\\', '?', '#'} && Visible(ui[i]) {
      if i < |u.username| {
        assert ui[i] == u.username[i] && !InSet(UserinfoSet, u.username[i]);
      } else if i > |u.username| {
        assert ui[i] == u.password[i - |u.username| - 1] && !InSet(UserinfoSet, u.password[i - |u.username| - 1]);
      }
    }
  }

  /** The authority stage put together from the results of its steps. */
  lemma ParseAuthorityFrom(scheme: string, a: string, ui: Option<string>, hostPort: string, host: string,
                           portText: Option<string>, port: Option<nat>, username: string, password: string)
    requires SplitUserinfo(a) == (ui, hostPort) && SplitPort(hostPort) == (host, portText)
    requires ui.Some? ==> hostPort != []
    requires portText.Some? ==> host != []
    requires ParseHost(scheme, host) == Some(host) && ParsePort(scheme, portText.GetOr("")) == Some(port)
    requires SplitCredentials(ui.GetOr("")) == (username, password)
    requires Encode(UserinfoSet, username) == username && Encode(UserinfoSet, password) == password
    ensures ParseAuthority(scheme, a) == Some((username, password, host, port))
  {
  }

  /** A whole authority, credentials included, reads back as written. */
  lemma ParseAuthorityText(u: Url)
    requires Valid(u)
    ensures ParseAuthority(u.scheme, AuthorityText(u)) == Some((u.username, u.password, u.host, u.port))
  {
    var hostPort := u.host + PortText(u.port);
    var creds := u.username != [] || u.password != [];
    assert NoneOf(u.host, {':'}) by {
      forall i | 0 <= i < |u.host| ensures u.host[i] != ':' { assert !ForbiddenHostChar(u.host[i]); }
    }
    HostPortDelimiters(u.host, u.port);
    SplitUserinfoText(u, hostPort);
    SplitPortText(u.host, u.port);
    ParseHostText(u.scheme, u.host);
    ParsePortText(u.scheme, u.port);
    var ui := if creds then Some(UserinfoText(u)) else None;
    if creds {
      SplitCredentialsText(u);
    } else {
      assert SplitCredentials("") == ("", "");
    }
    EncodeClear(UserinfoSet, u.username);
    EncodeClear(UserinfoSet, u.password);
    var portText := if u.port.Some? then Some(Decimal.NatToString(u.port.value)) else None;
    assert ui.Some? ==> hostPort != [] by {
      if creds { assert |hostPort| >= |u.host| > 0; }
    }
    ParseAuthorityFrom(u.scheme, AuthorityText(u), ui, hostPort, u.host, portText, u.port, u.username, u.password);
  }

  /** Text without `c`, then optionally `c` and anything, splits back at that `c`. */
  lemma SplitAtFirst(before: string, c: char, after: Option<string>, t: string)
    requires forall j | 0 <= j < |before| :: before[j] != c
    requires t == before + (if after.Some? then [c] + after.value else "")
    ensures var k := FormUrlEncoded.IndexOf(t, c);
      && (after.Some? ==> k < |t| && t[..k] == before && t[k + 1..] == after.value)
      && (after.None? ==> k == |t| && t == before)
  {
    if after.Some? {
      FormUrlEncoded.IndexOfFirst(before, c, after.value);
      assert t == before + [c] + after.value;
      assert t[..|before|] == before && t[|before| + 1..] == after.value;
    } else {
      assert t == before;
    }
  }

  lemma SplitTailText(u: Url)
    requires Valid(u)
    ensures SplitTail(TailText(u)) == (u.path, u.query, u.fragment)
  {
    var beforeHash := u.path + (if u.query.Some? then "?" + u.query.value else "");
    assert forall j | 0 <= j < |beforeHash| :: beforeHash[j] != '#' by {
      forall j | 0 <= j < |beforeHash| ensures beforeHash[j] != '#' {
        if j < |u.path| {
          assert beforeHash[j] == u.path[j] && !InSet(PathSet, u.path[j]);
        } else if j > |u.path| {
          assert beforeHash[j] == u.query.value[j - |u.path| - 1] && !InSet(QuerySetOf(u.scheme), u.query.value[j - |u.path| - 1]);
        }
      }
    }
    SplitAtFirst(beforeHash, '#', u.fragment, TailText(u));
    assert forall j | 0 <= j < |u.path| :: u.path[j] != '?' by {
      forall j | 0 <= j < |u.path| ensures u.path[j] != '?' { assert !InSet(PathSet, u.path[j]); }
    }
    SplitAtFirst(u.path, '?', u.query, beforeHash);
  }

  /** No delimiter of the later components occurs in a serialized authority, and all of it is visible. */
  lemma AuthorityDelimiters(u: Url)
    requires Valid(u)
    ensures NoneOf(AuthorityText(u), {'/', '\\', '?', '#'})
    ensures AllVisible(AuthorityText(u))
  {
    var hostPort := u.host + PortText(u.port);
    HostPortDelimiters(u.host, u.port);
    if u.username != [] || u.password != [] {
      var ui := UserinfoText(u);
      UserinfoDelimiters(u);
      var a := ui + "@" + hostPort;
      forall i | 0 <= i < |a| ensures a[i] !in {'/', '\\', '?', '#'} && Visible(a[i]) {
        if i < |ui| { assert a[i] == ui[i]; }
        else if i > |ui| { assert a[i] == hostPort[i - |ui| - 1]; }
      }
    }
  }

  /** A special URL's authority starts with neither '/' nor '\', so the slashes before it end where it begins. */
  lemma AuthorityStart(u: Url)
    requires Valid(u) && IsSpecial(u.scheme)
    ensures AuthorityText(u) != [] && AuthorityText(u)[0] != '/' && AuthorityText(u)[0] != '\\'
  {
    AuthorityDelimiters(u);
    assert u.host != [];
  }

  lemma TailStart(u: Url)
    requires Valid(u)
    ensures TailText(u) == [] || TailText(u)[0] in {'/', '?', '#'}
  {
  }

  lemma TailVisible(u: Url)
    requires Valid(u)
    ensures AllVisible(TailText(u))
  {
    ClearVisible(PathSet, u.path);
    var beforeHash := u.path + (if u.query.Some? then "?" + u.query.value else "");
    if u.query.Some? {
      ClearVisible(QuerySetOf(u.scheme), u.query.value);
      VisibleAppend("?", u.query.value);
    }
    VisibleAppend(u.path, if u.query.Some? then "?" + u.query.value else "");
    if u.fragment.Some? {
      ClearVisible(FragmentSet, u.fragment.value);
      VisibleAppend("#", u.fragment.value);
    }
    VisibleAppend(beforeHash, if u.fragment.Some? then "#" + u.fragment.value else "");
  }

  /** A serialized URL is made of visible characters only, so the clean-up steps leave it alone. */
  lemma HrefVisible(u: Url)
    requires Valid(u)
    ensures AllVisible(Href(u))
  {
    AuthorityDelimiters(u);
    TailVisible(u);
    VisibleAppend(u.scheme, "://");
    VisibleAppend(u.scheme + "://", AuthorityText(u));
    VisibleAppend(u.scheme + "://" + AuthorityText(u), TailText(u));
  }

  lemma SchemeEnd(scheme: string, rest: string, s: string)
    requires ValidScheme(scheme) && IsLower(scheme) && s == scheme + ":" + rest
    ensures SplitScheme(s) == Some((scheme, rest))
  {
    assert forall j | 0 <= j < |scheme| :: scheme[j] != ':' by {
      forall j | 0 <= j < |scheme| ensures scheme[j] != ':' { assert IsSchemeChar(scheme[j]); }
    }
    FormUrlEncoded.IndexOfFirst(scheme, ':', rest);
    assert s[..|scheme|] == scheme && s[|scheme| + 1..] == rest;
    LowerIdem(scheme);
  }

  /** A valid path, query and fragment are their own encodings. */
  lemma TailComponentsText(u: Url)
    requires Valid(u)
    ensures PathOf(u.scheme, u.path) == u.path
    ensures u.query.Some? ==> Encode(QuerySetOf(u.scheme), u.query.value) == u.query.value
    ensures u.fragment.Some? ==> Encode(FragmentSet, u.fragment.value) == u.fragment.value
  {
    if IsSpecial(u.scheme) { SlashesNone(u.path); }
    EncodeClear(PathSet, u.path);
    if u.query.Some? { EncodeClear(QuerySetOf(u.scheme), u.query.value); }
    if u.fragment.Some? { EncodeClear(FragmentSet, u.fragment.value); }
  }

  lemma ParseAfterSlashesText(u: Url)
    requires Valid(u)
    ensures ParseAfterSlashes(u.scheme, AuthorityText(u) + TailText(u)) == Some(u)
  {
    var a, t := AuthorityText(u), TailText(u);
    AuthorityDelimiters(u);
    TailStart(u);
    IndexOfAnyFirst(a, AuthorityEnd(u.scheme), t);
    assert (a + t)[..|a|] == a && (a + t)[|a|..] == t;
    ParseAuthorityText(u);
    SplitTailText(u);
    TailComponentsText(u);
  }

  lemma SkipTwoSlashes(rest: string)
    requires rest == [] || (rest[0] != '/' && rest[0] != '\\')
    ensures SkipSlashes("//" + rest) == rest
  {
    var s := "//" + rest;
    assert s[0] == '/' && s[1..] == "/" + rest;
    assert SkipSlashes(s) == SkipSlashes("/" + rest);
    assert ("/" + rest)[0] == '/' && ("/" + rest)[1..] == rest;
    assert SkipSlashes("/" + rest) == SkipSlashes(rest);
  }

  /** Visible text "scheme://rest" is parsed by the authority-and-tail stage on `rest`. */
  lemma ParseText(scheme: string, rest: string, s: string)
    requires ValidScheme(scheme) && IsLower(scheme) && scheme != "file"
    requires s == scheme + "://" + rest && AllVisible(s)
    requires IsSpecial(scheme) ==> rest == [] || (rest[0] != '/' && rest[0] != '\\')
    ensures Parse(s) == ParseAfterSlashes(scheme, rest)
  {
    CleanVisible(s);
    var after := "//" + rest;
    assert s == scheme + ":" + after;
    SchemeEnd(scheme, after, s);
    if IsSpecial(scheme) {
      SkipTwoSlashes(rest);
    } else {
      assert after[2..] == rest;
    }
  }

  /** A serialized URL is parsed by the authority-and-tail stage on what follows "://". */
  lemma ParseSlashes(u: Url)
    requires Valid(u)
    ensures Parse(Href(u)) == ParseAfterSlashes(u.scheme, AuthorityText(u) + TailText(u))
  {
    HrefVisible(u);
    if IsSpecial(u.scheme) {
      AuthorityStart(u);
    }
    ParseText(u.scheme, AuthorityText(u) + TailText(u), Href(u));
  }

  /** A URL without credentials, port or fragment is written scheme, "://", host, path, '?', query. */
  lemma HrefPlain(u: Url)
    requires u.username == [] && u.password == [] && u.port.None? && u.query.Some? && u.fragment.None?
    ensures Href(u) == u.scheme + "://" + u.host + u.path + "?" + u.query.value
  {
    assert AuthorityText(u) == u.host;
    assert TailText(u) == u.path + "?" + u.query.value;
  }

  /** `new URL(url.href)` gives back the same URL: serialization loses nothing the parser keeps. */
  lemma ParseHref(u: Url)
    requires Valid(u)
    ensures Parse(Href(u)) == Some(u)
  {
    ParseSlashes(u);
    ParseAfterSlashesText(u);
  }

  // ------------------------------------------------ what the parser produces is valid

  lemma ParseAuthorityValid(scheme: string, a: string)
    requires ParseAuthority(scheme, a).Some?
    ensures var (username, password, host, port) := ParseAuthority(scheme, a).value;
      && Clear(UserinfoSet, username) && Clear(UserinfoSet, password)
      && ValidHost(scheme, host)
      && (host == [] ==> username == [] && password == [] && port.None?)
      && (port.Some? ==> port.value <= 65535 && DefaultPort(scheme) != port)
  {
    var (ui, hostPort) := SplitUserinfo(a);
    var (rawHost, portText) := SplitPort(hostPort);
    var host := ParseHost(scheme, rawHost).value;
    if host == [] {
      assert !IsSpecial(scheme) && rawHost == [];
      assert portText.None?;
      assert ui.None?;
    }
  }

  lemma SplitTailValid(t: string)
    ensures var (path, query, _) := SplitTail(t);
      && NoneOf(path, {'?', '#'}) && (path == [] || path[0] == t[0])
  {
    var (beforeHash, _) := SplitFragment(t);
    var f := FormUrlEncoded.IndexOf(t, '#');
    assert beforeHash == t[..f];
    assert forall j | 0 <= j < |beforeHash| :: beforeHash[j] == t[j];
    var q := FormUrlEncoded.IndexOf(beforeHash, '?');
    assert forall j | 0 <= j < q :: beforeHash[..q][j] == beforeHash[j];
  }

  /** The parsed path is encoded, rooted and, for special schemes, free of '\'. */
  lemma PathOfValid(scheme: string, raw: string)
    requires raw == [] || raw[0] == '/' || (IsSpecial(scheme) && raw[0] == '\\')
    ensures var path := PathOf(scheme, raw);
      && Clear(PathSet, path) && (path == [] || path[0] == '/')
      && (IsSpecial(scheme) ==> path != [] && NoneOf(path, {'\\'}))
  {
    if !IsSpecial(scheme) {
      if raw != [] { EncodeHead(PathSet, raw); }
    } else if raw != [] {
      var s := Slashes(raw);
      EncodeHead(PathSet, s);
      EncodeKeepsOut(PathSet, s, '\\');
    }
  }

  lemma ParseAfterSlashesValid(scheme: string, rest: string)
    requires ValidScheme(scheme) && IsLower(scheme) && scheme != "file" && ParseAfterSlashes(scheme, rest).Some?
    ensures Valid(ParseAfterSlashes(scheme, rest).value)
  {
    var e := IndexOfAny(rest, AuthorityEnd(scheme));
    ParseAuthorityValid(scheme, rest[..e]);
    var t := rest[e..];
    assert t == [] || t[0] in AuthorityEnd(scheme);
    SplitTailValid(t);
    var (rawPath, _, _) := SplitTail(t);
    PathOfValid(scheme, rawPath);
  }

  /** Every URL the parser produces is valid, so its `href` parses back to it. */
  lemma ParseValid(s: string)
    requires Parse(s).Some?
    ensures Valid(Parse(s).value)
    ensures Parse(Href(Parse(s).value)) == Parse(s)
  {
    var c := Clean(s);
    var i := FormUrlEncoded.IndexOf(c, ':');
    LowerValid(c[..i]);
    var (scheme, after) := SplitScheme(c).value;
    if IsSpecial(scheme) {
      ParseAfterSlashesValid(scheme, SkipSlashes(after));
    } else {
      ParseAfterSlashesValid(scheme, after[2..]);
    }
    ParseHref(Parse(s).value);
  }

  /** A serialized parameter list has nothing left to encode in either query set. */
  lemma SerializeClear(ps: FormUrlEncoded.Pairs)
    ensures Clear(QuerySet, FormUrlEncoded.Serialize(ps)) && Clear(SpecialQuerySet, FormUrlEncoded.Serialize(ps))
  {
    var q := FormUrlEncoded.Serialize(ps);
    forall i | 0 <= i < |q| ensures !InSet(QuerySet, q[i]) && !InSet(SpecialQuerySet, q[i]) {
      assert FormUrlEncoded.IsEncodedChar(q[i]) || q[i] == '=' || q[i] == '&';
    }
  }

  /** After `url.searchParams.set(name, value)` the URL is still valid: the new query needs no encoding. */
  lemma SetSearchParamValid(u: Url, name: string, value: string)
    requires Valid(u)
    ensures Valid(SetSearchParam(u, name, value))
  {
    SerializeClear(FormUrlEncoded.Set(SearchParams(u), name, value));
  }

  /**
   * After `url.searchParams.set(name, value)`, `searchParams.get(name)` is `value` and every other
   * name keeps its first value.
   */
  lemma SetSearchParamGet(u: Url, name: string, value: string, other: string)
    requires other != name
    ensures FormUrlEncoded.Get(SearchParams(SetSearchParam(u, name, value)), name) == Some(value)
    ensures FormUrlEncoded.Get(SearchParams(SetSearchParam(u, name, value)), other) == FormUrlEncoded.Get(SearchParams(u), other)
  {
    var ps := FormUrlEncoded.Set(SearchParams(u), name, value);
    FormUrlEncoded.ParsePiecesSerialize(ps);
    assert SearchParams(SetSearchParam(u, name, value)) == ps;
    FormUrlEncoded.SetGet(SearchParams(u), name, value);
    FormUrlEncoded.SetGetOther(SearchParams(u), name, value, other);
  }

  // ------------------------------------------------ '\' and percent-encoding

  /** An authority that is just a valid host: no credentials and no port. */
  lemma ParseBareHost(scheme: string, host: string)
    requires ValidHost(scheme, host)
    ensures ParseAuthority(scheme, host) == Some(("", "", host, None))
  {
    assert NoneOf(host, {'@', ':'}) by {
      forall i | 0 <= i < |host| ensures host[i] !in {'@', ':'} { assert !ForbiddenHostChar(host[i]); }
    }
    assert SplitUserinfo(host) == (None, host);
    assert SplitPort(host) == (host, None);
    ParseHostText(scheme, host);
    assert SplitCredentials("") == ("", "");
    ParseAuthorityFrom(scheme, host, None, host, host, None, None, "", "");
  }

  /** A host holds none of the characters that end an authority. */
  lemma HostEndsNothing(scheme: string, host: string)
    requires HostChars(host)
    ensures NoneOf(host, AuthorityEnd(scheme))
  {
    forall i | 0 <= i < |host| ensures host[i] !in AuthorityEnd(scheme) { assert !ForbiddenHostChar(host[i]); }
  }

  /** The components a successful authority-and-tail stage takes from its steps. */
  lemma ParseAfterSlashesParts(scheme: string, rest: string)
    requires ParseAfterSlashes(scheme, rest).Some?
    ensures var e := IndexOfAny(rest, AuthorityEnd(scheme));
      var u := ParseAfterSlashes(scheme, rest).value;
      && ParseAuthority(scheme, rest[..e]) == Some((u.username, u.password, u.host, u.port))
      && u.path == PathOf(scheme, SplitTail(rest[e..]).0)
  {
  }

  /** With a bare host before a '\', the authority stage stops at the '\': the host is that host and the rest is path. */
  lemma AfterSlashesBackslash(scheme: string, host: string, rest: string)
    requires IsSpecial(scheme) && ValidHost(scheme, host)
    ensures var u := ParseAfterSlashes(scheme, host + ("\\" + rest));
      u.Some? ==> u.value.host == host && u.value.username == [] && u.value.password == [] && u.value.path != [] && u.value.path[0] == '/'
  {
    var r := host + ("\\" + rest);
    if ParseAfterSlashes(scheme, r).Some? {
      HostEndsNothing(scheme, host);
      IndexOfAnyFirst(host, AuthorityEnd(scheme), "\\" + rest);
      assert r[..|host|] == host;
      ParseBareHost(scheme, host);
      var t := r[|host|..];
      assert t == "\\" + rest;
      SplitTailValid(t);
      PathOfValid(scheme, SplitTail(t).0);
      ParseAfterSlashesParts(scheme, r);
    }
  }

  lemma BackslashTextVisible(scheme: string, host: string, rest: string)
    requires ValidScheme(scheme) && HostChars(host) && AllVisible(rest)
    ensures AllVisible(scheme + "://" + (host + ("\\" + rest)))
  {
    assert AllVisible(host) by {
      forall i | 0 <= i < |host| ensures Visible(host[i]) { assert !ForbiddenHostChar(host[i]); }
    }
    VisibleAppend("\\", rest);
    VisibleAppend(host, "\\" + rest);
    VisibleAppend(scheme, "://");
    VisibleAppend(scheme + "://", host + ("\\" + rest));
  }

  /**
   * For a special scheme a '\' ends the host exactly as '/' does: whatever follows, even an '@' and
   * another host name, is path.
   */
  lemma BackslashEndsHost(scheme: string, host: string, rest: string)
    requires ValidScheme(scheme) && IsLower(scheme) && IsSpecial(scheme)
    requires ValidHost(scheme, host) && AllVisible(rest)
    ensures var u := Parse(scheme + "://" + host + "\\" + rest);
      u.Some? ==> u.value.host == host && u.value.username == [] && u.value.password == [] && u.value.path != [] && u.value.path[0] == '/'
  {
    var r := host + ("\\" + rest);
    var s := scheme + "://" + r;
    assert s == scheme + "://" + host + "\\" + rest;
    BackslashTextVisible(scheme, host, rest);
    assert r[0] == host[0] && !ForbiddenHostChar(host[0]);
    ParseText(scheme, r, s);
    AfterSlashesBackslash(scheme, host, rest);
  }

  /** A space in a path is written "%20" in the URL Node hands back. */
  lemma SpaceInPath()
    ensures Encode(PathSet, "/x y") == "/x%20y"
  {
    assert InSet(PathSet, ' ');
    assert Utf8.EncodeChar(' ') == [0x20];
    assert PercentBytes([0x20]) == "%20";
    assert EncodeChar(PathSet, ' ') == "%20";
    assert Encode(PathSet, "y") == "y";
    assert Encode(PathSet, " y") == "%20y";
    assert Encode(PathSet, "x y") == "x%20y";
  }
}
