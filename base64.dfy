/** Base 64 of RFC 4648: the padded standard alphabet of section 4, as
    `Buffer.toString('base64')` writes it, and the URL and file-name safe
    alphabet of section 5 without the padding of section 3.2. Each group of
    three bytes becomes four characters of six bits each; a final group of
    one or two bytes becomes two or three characters, padded with `=` in
    the standard form. */
module Base64 {
  import opened Wrappers
  import opened Utf8

  type sextet = x: int | 0 <= x < 64

  /** Section 4 of RFC 4648, table 1: A-Z, a-z, 0-9, `+`, `/`. */
  function StdChar(x: sextet): char {
    if x < 26 then ('A' as int + x) as char
    else if x < 52 then ('a' as int + x - 26) as char
    else if x < 62 then ('0' as int + x - 52) as char
    else if x == 62 then '+' else '/'
  }

  /** Section 5 of RFC 4648, table 2: as table 1 with `-` and `_` for 62 and 63. */
  function UrlChar(x: sextet): char {
    if x == 62 then '-' else if x == 63 then '_' else StdChar(x)
  }

  /** The value of a character of the standard alphabet. */
  function StdValue(c: char): (r: Option<sextet>)
    ensures r.Some? ==> StdChar(r.value) == c
  {
    if 'A' <= c <= 'Z' then Some(c as int - 'A' as int)
    else if 'a' <= c <= 'z' then Some(c as int - 'a' as int + 26)
    else if '0' <= c <= '9' then Some(c as int - '0' as int + 52)
    else if c == '+' then Some(62)
    else if c == '/' then Some(63)
    else None
  }

  lemma StdValueOf(x: sextet)
    ensures StdValue(StdChar(x)) == Some(x)
  {
  }

  // The six-bit pieces of one, two or three bytes.
  function S0(a: byte): sextet { a as int / 4 }
  function S1(a: byte, b: byte): sextet { (a as int % 4) * 16 + b as int / 16 }
  function S2(b: byte, c: byte): sextet { (b as int % 16) * 4 + c as int / 64 }
  function S3(c: byte): sextet { c as int % 64 }

  // The bytes of two, three or four six-bit pieces.
  function B0(x0: sextet, x1: sextet): byte { x0 as int * 4 + x1 as int / 16 }
  function B1(x1: sextet, x2: sextet): byte { (x1 as int % 16) * 16 + x2 as int / 4 }
  function B2(x2: sextet, x3: sextet): byte { (x2 as int % 4) * 64 + x3 as int }

  /** The pieces of the bytes, without padding: four per full group, then
      two for one trailing byte or three for two. */
  function Sextets(b: seq<byte>): (r: seq<sextet>)
    ensures |r| == (4 * |b| + 2) / 3
    decreases |b|
  {
    if |b| == 0 then []
    else if |b| == 1 then [S0(b[0]), S1(b[0], 0)]
    else if |b| == 2 then [S0(b[0]), S1(b[0], b[1]), S2(b[1], 0)]
    else [S0(b[0]), S1(b[0], b[1]), S2(b[1], b[2]), S3(b[2])] + Sextets(b[3..])
  }

  /** `=` characters that bring the length to a multiple of four. */
  function Padding(n: nat): (r: string)
    ensures (n + |r|) % 4 == 0 && |r| < 4
    ensures forall i :: 0 <= i < |r| ==> r[i] == '='
  {
    if n % 4 == 0 then "" else if n % 4 == 2 then "==" else if n % 4 == 3 then "=" else "==="
  }

  lemma PaddedLength(n: nat)
    ensures var m := (4 * n + 2) / 3; m + |Padding(m)| == 4 * ((n + 2) / 3)
  {
    var q, r := n / 3, n % 3;
    assert n == 3 * q + r;
    assert (4 * n + 2) / 3 == 4 * q + (4 * r + 2) / 3;
  }

  /** Section 4 of RFC 4648, with padding: `Buffer.toString('base64')`. */
  function Encode(b: seq<byte>): string {
    var x := Sextets(b);
    seq(|x|, i requires 0 <= i < |x| => StdChar(x[i])) + Padding(|x|)
  }

  /** Four characters per started group of three bytes. */
  lemma EncodeLength(b: seq<byte>)
    ensures |Encode(b)| % 4 == 0 && |Encode(b)| == 4 * ((|b| + 2) / 3)
  {
    PaddedLength(|b|);
  }

  /** Base 64 text is printable ASCII without white space, so it is one
      line and needs no quoting in a header. */
  lemma EncodePrintable(b: seq<byte>)
    ensures forall i :: 0 <= i < |Encode(b)| ==> '+' <= Encode(b)[i] <= 'z'
  {
  }

  /** Section 5 of RFC 4648 with the padding of its section 3.2 left off. */
  function EncodeUrl(b: seq<byte>): (s: string)
    ensures |s| == (4 * |b| + 2) / 3
    ensures forall i :: 0 <= i < |s| ==> s[i] != '=' && s[i] != '+' && s[i] != '/'
  {
    var x := Sextets(b);
    seq(|x|, i requires 0 <= i < |x| => UrlChar(x[i]))
  }

  // --------------------------------------------------------------- decode

  /** The byte values of a run of six-bit pieces; a trailing run of two or
      three pieces gives one or two bytes, the unused low bits dropped. */
  function FromSextets(x: seq<sextet>): Option<seq<byte>>
    decreases |x|
  {
    if |x| == 0 then Some([])
    else if |x| == 1 then None
    else if |x| == 2 then Some([B0(x[0], x[1])])
    else if |x| == 3 then Some([B0(x[0], x[1]), B1(x[1], x[2])])
    else
      match FromSextets(x[4..])
      case None => None
      case Some(rest) =>
        Some([B0(x[0], x[1]), B1(x[1], x[2]), B2(x[2], x[3])] + rest)
  }

  /** The values of a run of standard-alphabet characters. */
  function Values(s: string): Option<seq<sextet>> {
    if |s| == 0 then Some([])
    else
      match StdValue(s[0])
      case None => None
      case Some(x) =>
        match Values(s[1..])
        case None => None
        case Some(rest) => Some([x] + rest)
  }

  /** `s` without its trailing `=` characters. */
  function StripPadding(s: string): (r: string)
    ensures |r| <= |s| && r == s[..|r|]
    ensures r == [] || r[|r| - 1] != '='
    ensures forall i :: |r| <= i < |s| ==> s[i] == '='
  {
    if |s| > 0 && s[|s| - 1] == '=' then StripPadding(s[..|s| - 1]) else s
  }

  /** A decoder for the padded standard form: at most two `=`, only at the
      end, and a total length that is a multiple of four. */
  function Decode(s: string): Option<seq<byte>> {
    var body := StripPadding(s);
    if |s| % 4 != 0 || |s| - |body| > 2 then None
    else
      match Values(body)
      case None => None
      case Some(x) => FromSextets(x)
  }

  /** Maps the alphabet of section 5 of RFC 4648 back to that of section
      4 and restores the padding. */
  function FromUrl(s: string): string {
    seq(|s|, i requires 0 <= i < |s| => if s[i] == '-' then '+' else if s[i] == '_' then '/' else s[i])
    + Padding(|s|)
  }

  function DecodeUrl(s: string): Option<seq<byte>> {
    Decode(FromUrl(s))
  }

  // ---------------------------------------------------------- round trips

  lemma GroupRoundTrip(a: byte, b: byte, c: byte)
    ensures B0(S0(a), S1(a, b)) == a
    ensures B1(S1(a, b), S2(b, c)) == b
    ensures B2(S2(b, c), S3(c)) == c
  {
    assert S1(a, b) / 16 == a as int % 4 && S1(a, b) % 16 == b as int / 16;
    assert S2(b, c) / 4 == b as int % 16 && S2(b, c) % 4 == c as int / 64;
  }

  /** A full group of four pieces decodes ahead of what follows it. */
  lemma FromSextetsGroup(g: seq<sextet>, rest: seq<sextet>)
    requires |g| == 4
    ensures FromSextets(g + rest) ==
      match FromSextets(rest)
      case None => None
      case Some(r) => Some([B0(g[0], g[1]), B1(g[1], g[2]), B2(g[2], g[3])] + r)
  {
    assert (g + rest)[4..] == rest;
  }

  /** The bytes come back from their six-bit pieces. */
  lemma {:induction false} FromSextetsOf(b: seq<byte>)
    ensures FromSextets(Sextets(b)) == Some(b)
    decreases |b|
  {
    if |b| >= 3 {
      FromSextetsGroup([S0(b[0]), S1(b[0], b[1]), S2(b[1], b[2]), S3(b[2])], Sextets(b[3..]));
      FromSextetsOf(b[3..]);
      GroupRoundTrip(b[0], b[1], b[2]);
      assert [b[0], b[1], b[2]] + b[3..] == b;
    } else if |b| == 2 {
      FromSextetsTwo(b[0], b[1]);
      assert b == [b[0], b[1]];
    } else if |b| == 1 {
      FromSextetsOne(b[0]);
      assert b == [b[0]];
    }
  }

  lemma FromTwoSextets(y0: sextet, y1: sextet)
    ensures FromSextets([y0, y1]) == Some([B0(y0, y1)])
  {
  }

  lemma FromThreeSextets(y0: sextet, y1: sextet, y2: sextet)
    ensures FromSextets([y0, y1, y2]) == Some([B0(y0, y1), B1(y1, y2)])
  {
  }

  lemma FromSextetsOne(a: byte)
    ensures FromSextets(Sextets([a])) == Some([a])
  {
    assert Sextets([a]) == [S0(a), S1(a, 0)];
    FromTwoSextets(S0(a), S1(a, 0));
    GroupRoundTrip(a, 0, 0);
  }

  lemma FromSextetsTwo(a: byte, c: byte)
    ensures FromSextets(Sextets([a, c])) == Some([a, c])
  {
    assert Sextets([a, c]) == [S0(a), S1(a, c), S2(c, 0)];
    FromThreeSextets(S0(a), S1(a, c), S2(c, 0));
    GroupRoundTrip(a, c, 0);
  }

  lemma {:induction false} ValuesOfStd(x: seq<sextet>)
    ensures Values(seq(|x|, i requires 0 <= i < |x| => StdChar(x[i]))) == Some(x)
  {
    var s := seq(|x|, i requires 0 <= i < |x| => StdChar(x[i]));
    if |x| > 0 {
      StdValueOf(x[0]);
      assert s[1..] == seq(|x[1..]|, i requires 0 <= i < |x[1..]| => StdChar(x[1..][i]));
      ValuesOfStd(x[1..]);
      assert [x[0]] + x[1..] == x;
    }
  }

  /** Trailing `=` characters come off, and nothing before them. */
  lemma {:induction false} StripOfPadded(body: string, p: string)
    requires body == [] || body[|body| - 1] != '='
    requires forall i :: 0 <= i < |p| ==> p[i] == '='
    ensures StripPadding(body + p) == body
    decreases |p|
  {
    var s := body + p;
    if |p| > 0 {
      assert s[..|s| - 1] == body + p[..|p| - 1];
      StripOfPadded(body, p[..|p| - 1]);
    } else {
      assert s == body;
    }
  }

  /** No encoding needs more than two `=`. */
  lemma AtMostTwoPads(n: nat)
    ensures |Padding((4 * n + 2) / 3)| <= 2
  {
    var q, r := n / 3, n % 3;
    assert n == 3 * q + r;
    assert (4 * n + 2) / 3 == 4 * q + (4 * r + 2) / 3;
  }

  /** Decoding gives back every encoded byte string. */
  lemma DecodeEncode(b: seq<byte>)
    ensures Decode(Encode(b)) == Some(b)
  {
    var x := Sextets(b);
    var body := seq(|x|, i requires 0 <= i < |x| => StdChar(x[i]));
    var s := Encode(b);
    assert s == body + Padding(|x|);
    assert body == [] || body[|body| - 1] != '=';
    StripOfPadded(body, Padding(|x|));
    EncodeLength(b);
    AtMostTwoPads(|b|);
    assert |s| % 4 == 0 && |s| - |body| <= 2;
    ValuesOfStd(x);
    FromSextetsOf(b);
  }

  /** The unpadded URL form is the standard form with two characters
      renamed and the padding dropped. */
  lemma UrlIsStd(b: seq<byte>)
    ensures FromUrl(EncodeUrl(b)) == Encode(b)
  {
  }

  lemma DecodeUrlEncode(b: seq<byte>)
    ensures DecodeUrl(EncodeUrl(b)) == Some(b)
  {
    UrlIsStd(b);
    DecodeEncode(b);
  }
}
