/** The two text encodings a download link is made of: percent-escaping
    as Go's `net/url` does it for a query component and for a path segment,
    and base64 in the URL-safe alphabet without padding (`RawURLEncoding`,
    section 5 of RFC 4648). Each comes with its decoder and a round trip. */
module UrlCodec {
  import opened Wrappers
  import Utf8

  /* ---------------- percent-escaping ---------------- */

  /** `url.QueryEscape` escapes for a query component, `url.PathEscape`
      for a path segment. */
  datatype EscapeMode = QueryComponent | PathSegment

  predicate IsAlnumByte(b: Utf8.byte) {
    ('A' as int <= b <= 'Z' as int) || ('a' as int <= b <= 'z' as int) || ('0' as int <= b <= '9' as int)
  }

  /** The unreserved characters of section 2.3 of RFC 3986. */
  predicate Unreserved(b: Utf8.byte) {
    IsAlnumByte(b) || b == '-' as int || b == '_' as int || b == '.' as int || b == '~' as int
  }

  /** The bytes written as themselves: in a path segment also
      `$ & + : = @`, which a query component escapes. */
  predicate Kept(b: Utf8.byte, mode: EscapeMode) {
    Unreserved(b) ||
    (mode == PathSegment &&
      (b == '$' as int || b == '&' as int || b == '+' as int || b == ':' as int || b == '=' as int || b == '@' as int))
  }

  function HexDigit(d: nat): (c: char)
    requires d < 16
    ensures '0' <= c <= '9' || 'A' <= c <= 'F'
  {
    if d < 10 then ('0' as int + d) as char else ('A' as int + d - 10) as char
  }

  /** The value of a hexadecimal digit in either case. */
  function HexValue(c: char): Option<nat> {
    if '0' <= c <= '9' then Some(c as int - '0' as int)
    else if 'A' <= c <= 'F' then Some(c as int - 'A' as int + 10)
    else if 'a' <= c <= 'f' then Some(c as int - 'a' as int + 10)
    else None
  }

  function EscapeByte(b: Utf8.byte, mode: EscapeMode): (r: string)
    ensures |r| == 1 || |r| == 3
    ensures forall i | 0 <= i < |r| :: r[i] as int < 0x80
  {
    if Kept(b, mode) then [b as char]
    else if b == ' ' as int && mode == QueryComponent then "+"
    else "%" + [HexDigit(b / 16), HexDigit(b % 16)]
  }

  function EscapeBytes(bs: seq<Utf8.byte>, mode: EscapeMode): (r: string)
    ensures forall i | 0 <= i < |r| :: r[i] as int < 0x80
  {
    if |bs| == 0 then "" else EscapeByte(bs[0], mode) + EscapeBytes(bs[1..], mode)
  }

  /** `url.QueryEscape` and `url.PathEscape`: over the string's UTF-8
      bytes. */
  function Escape(s: string, mode: EscapeMode): string {
    EscapeBytes(Utf8.Encode(s), mode)
  }

  /** `url.QueryUnescape` and `url.PathUnescape` as bytes: `%XY` is the byte
      XY, `+` is a space in a query component, any other character stands
      for itself; a `%` without two hex digits after it is an error. */
  function UnescapeBytes(s: string, mode: EscapeMode): Option<seq<Utf8.byte>>
    decreases |s|
  {
    if |s| == 0 then Some([])
    else if s[0] == '%' then
      if |s| < 3 || HexValue(s[1]).None? || HexValue(s[2]).None? then None
      else
        match UnescapeBytes(s[3..], mode)
        case None => None
        case Some(rest) => Some([HexValue(s[1]).value * 16 + HexValue(s[2]).value] + rest)
    else
      var head := if s[0] == '+' && mode == QueryComponent then [' ' as int as Utf8.byte] else Utf8.EncodeRune(s[0]);
      match UnescapeBytes(s[1..], mode)
      case None => None
      case Some(rest) => Some(head + rest)
  }

  /** Unescaping as text; `None` too when the bytes are not UTF-8. */
  function Unescape(s: string, mode: EscapeMode): Option<string> {
    match UnescapeBytes(s, mode)
    case None => None
    case Some(bs) => Utf8.Decode(bs)
  }

  lemma HexRoundTrip(d: nat)
    requires d < 16
    ensures HexValue(HexDigit(d)) == Some(d)
  {
  }

  lemma UnescapeEscapeByte(b: Utf8.byte, mode: EscapeMode, rest: string)
    ensures UnescapeBytes(EscapeByte(b, mode) + rest, mode) ==
      match UnescapeBytes(rest, mode)
      case None => None
      case Some(bs) => Some([b] + bs)
  {
    var e := EscapeByte(b, mode);
    var s := e + rest;
    if Kept(b, mode) {
      assert s[0] == b as char && s[1..] == rest;
      assert b as char != '%';
      assert Utf8.EncodeRune(b as char) == [b];
    } else if b == ' ' as int && mode == QueryComponent {
      assert s[0] == '+' && s[1..] == rest;
    } else {
      HexRoundTrip(b / 16);
      HexRoundTrip(b % 16);
      assert s[0] == '%' && s[1] == HexDigit(b / 16) && s[2] == HexDigit(b % 16) && s[3..] == rest;
    }
  }

  lemma {:induction false} UnescapeEscapeBytes(bs: seq<Utf8.byte>, mode: EscapeMode)
    ensures UnescapeBytes(EscapeBytes(bs, mode), mode) == Some(bs)
  {
    if |bs| > 0 {
      UnescapeEscapeBytes(bs[1..], mode);
      UnescapeEscapeByte(bs[0], mode, EscapeBytes(bs[1..], mode));
      assert [bs[0]] + bs[1..] == bs;
    }
  }

  /** Unescaping undoes escaping, in both modes. */
  lemma UnescapeEscape(s: string, mode: EscapeMode)
    ensures Unescape(Escape(s, mode), mode) == Some(s)
  {
    UnescapeEscapeBytes(Utf8.Encode(s), mode);
    Utf8.DecodeEncode(s);
  }

  predicate UnreservedText(s: string) {
    forall i | 0 <= i < |s| :: s[i] as int < 0x80 && Unreserved(s[i] as int)
  }

  /** Text made of unreserved characters is written unchanged. */
  lemma {:induction false} EscapeUnreserved(s: string, mode: EscapeMode)
    requires UnreservedText(s)
    ensures Escape(s, mode) == s
  {
    Utf8.EncodeAscii(s);
    assert Utf8.Encode(s) == seq(|s|, i requires 0 <= i < |s| => s[i] as int as Utf8.byte);
    EscapeBytesAscii(s, mode);
  }

  lemma {:induction false} EscapeBytesAscii(s: string, mode: EscapeMode)
    requires UnreservedText(s)
    ensures EscapeBytes(seq(|s|, i requires 0 <= i < |s| => s[i] as int as Utf8.byte), mode) == s
  {
    var bs := seq(|s|, i requires 0 <= i < |s| => s[i] as int as Utf8.byte);
    if |s| > 0 {
      EscapeBytesAscii(s[1..], mode);
      assert bs[1..] == seq(|s[1..]|, i requires 0 <= i < |s[1..]| => s[1..][i] as int as Utf8.byte);
      assert EscapeByte(bs[0], mode) == [s[0]];
      assert s == [s[0]] + s[1..];
    }
  }

  /* ---------------- base64, URL alphabet, no padding ---------------- */

  /** The character of a six-bit value: A–Z, a–z, 0–9, `-`, `_`. */
  function Sextet(v: nat): (c: char)
    requires v < 64
    ensures IsUrlChar(c)
  {
    if v < 26 then ('A' as int + v) as char
    else if v < 52 then ('a' as int + v - 26) as char
    else if v < 62 then ('0' as int + v - 52) as char
    else if v == 62 then '-'
    else '_'
  }

  predicate IsUrlChar(c: char) {
    ('A' <= c <= 'Z') || ('a' <= c <= 'z') || ('0' <= c <= '9') || c == '-' || c == '_'
  }

  function SextetValue(c: char): (r: Option<nat>)
    ensures r.Some? ==> r.value < 64
  {
    if 'A' <= c <= 'Z' then Some(c as int - 'A' as int)
    else if 'a' <= c <= 'z' then Some(c as int - 'a' as int + 26)
    else if '0' <= c <= '9' then Some(c as int - '0' as int + 52)
    else if c == '-' then Some(62)
    else if c == '_' then Some(63)
    else None
  }

  lemma SextetRoundTrip(v: nat)
    requires v < 64
    ensures SextetValue(Sextet(v)) == Some(v)
  {
  }

  /** Three bytes as four characters, most significant bits first. */
  function Quad(b0: Utf8.byte, b1: Utf8.byte, b2: Utf8.byte): string {
    [Sextet(b0 / 4), Sextet((b0 % 4) * 16 + b1 / 16), Sextet((b1 % 16) * 4 + b2 / 64), Sextet(b2 % 64)]
  }

  /** A final two bytes as three characters, the last padded with zero bits. */
  function Triple(b0: Utf8.byte, b1: Utf8.byte): string {
    [Sextet(b0 / 4), Sextet((b0 % 4) * 16 + b1 / 16), Sextet((b1 % 16) * 4)]
  }

  /** `base64.RawURLEncoding.EncodeToString`: a final one or two bytes
      give two or three characters, with no `=` padding. */
  function Base64Url(bs: seq<Utf8.byte>): (r: string)
    ensures forall i | 0 <= i < |r| :: IsUrlChar(r[i])
  {
    if |bs| >= 3 then Quad(bs[0], bs[1], bs[2]) + Base64Url(bs[3..])
    else if |bs| == 2 then Triple(bs[0], bs[1])
    else if |bs| == 1 then [Sextet(bs[0] / 4), Sextet((bs[0] % 4) * 16)]
    else ""
  }

  /** Without padding, n bytes take ceil(4n/3) characters. */
  lemma {:induction false} Base64UrlLength(bs: seq<Utf8.byte>)
    ensures |Base64Url(bs)| == (4 * |bs| + 2) / 3
    decreases |bs|
  {
    if |bs| >= 3 {
      EncodeGroup(bs);
      Base64UrlLength(bs[3..]);
      assert (4 * |bs| + 2) / 3 == 4 + (4 * |bs[3..]| + 2) / 3;
    }
  }

  /** The decoder of the unpadded URL alphabet: four characters give three
      bytes, a final three give two and a final two give one; a lone final
      character or one outside the alphabet is an error. */
  function Base64UrlDecode(s: string): Option<seq<Utf8.byte>>
    decreases |s|
  {
    if |s| >= 4 then
      var v0, v1, v2, v3 := SextetValue(s[0]), SextetValue(s[1]), SextetValue(s[2]), SextetValue(s[3]);
      if v0.None? || v1.None? || v2.None? || v3.None? then None
      else
        match Base64UrlDecode(s[4..])
        case None => None
        case Some(rest) =>
          Some([v0.value * 4 + v1.value / 16, (v1.value % 16) * 16 + v2.value / 4, (v2.value % 4) * 64 + v3.value] + rest)
    else if |s| == 3 then
      var v0, v1, v2 := SextetValue(s[0]), SextetValue(s[1]), SextetValue(s[2]);
      if v0.None? || v1.None? || v2.None? then None
      else Some([v0.value * 4 + v1.value / 16, (v1.value % 16) * 16 + v2.value / 4])
    else if |s| == 2 then
      var v0, v1 := SextetValue(s[0]), SextetValue(s[1]);
      if v0.None? || v1.None? then None
      else Some([v0.value * 4 + v1.value / 16])
    else if |s| == 1 then None
    else Some([])
  }

  lemma QuadValues(b0: Utf8.byte, b1: Utf8.byte, b2: Utf8.byte)
    ensures var q := Quad(b0, b1, b2);
      SextetValue(q[0]) == Some(b0 / 4) &&
      SextetValue(q[1]) == Some((b0 % 4) * 16 + b1 / 16) &&
      SextetValue(q[2]) == Some((b1 % 16) * 4 + b2 / 64) &&
      SextetValue(q[3]) == Some(b2 % 64)
  {
    SextetRoundTrip(b0 / 4);
    SextetRoundTrip((b0 % 4) * 16 + b1 / 16);
    SextetRoundTrip((b1 % 16) * 4 + b2 / 64);
    SextetRoundTrip(b2 % 64);
  }

  lemma GroupArithmetic(b0: Utf8.byte, b1: Utf8.byte, b2: Utf8.byte)
    ensures var c0, c1, c2, c3 := b0 / 4, (b0 % 4) * 16 + b1 / 16, (b1 % 16) * 4 + b2 / 64, b2 % 64;
      c0 * 4 + c1 / 16 == b0 && (c1 % 16) * 16 + c2 / 4 == b1 && (c2 % 4) * 64 + c3 == b2
  {
    var c1 := (b0 % 4) * 16 + b1 / 16;
    var c2 := (b1 % 16) * 4 + b2 / 64;
    assert c1 / 16 == b0 % 4 && c1 % 16 == b1 / 16;
    assert c2 / 4 == b1 % 16 && c2 % 4 == b2 / 64;
  }

  lemma TailArithmetic(b0: Utf8.byte, b1: Utf8.byte)
    ensures var c1 := (b0 % 4) * 16 + b1 / 16;
      (b0 / 4) * 4 + c1 / 16 == b0 && (c1 % 16) * 16 + ((b1 % 16) * 4) / 4 == b1
    ensures (b0 / 4) * 4 + ((b0 % 4) * 16) / 16 == b0
  {
    var c1 := (b0 % 4) * 16 + b1 / 16;
    assert c1 / 16 == b0 % 4 && c1 % 16 == b1 / 16;
  }

  /** One group: three bytes decode back from their four characters,
      whatever follows. */
  lemma DecodeQuad(b0: Utf8.byte, b1: Utf8.byte, b2: Utf8.byte, rest: string)
    ensures Base64UrlDecode(Quad(b0, b1, b2) + rest) ==
      match Base64UrlDecode(rest)
      case None => None
      case Some(tail) => Some([b0, b1, b2] + tail)
  {
    var q := Quad(b0, b1, b2);
    var s := q + rest;
    QuadValues(b0, b1, b2);
    assert s[0] == q[0] && s[1] == q[1] && s[2] == q[2] && s[3] == q[3];
    assert s[4..] == rest;
    DecodeGroup(s, b0 / 4, (b0 % 4) * 16 + b1 / 16, (b1 % 16) * 4 + b2 / 64, b2 % 64);
    GroupArithmetic(b0, b1, b2);
  }

  lemma EncodeGroup(bs: seq<Utf8.byte>)
    requires |bs| >= 3
    ensures Base64Url(bs) == Quad(bs[0], bs[1], bs[2]) + Base64Url(bs[3..])
  {
  }

  lemma GroupSplit(bs: seq<Utf8.byte>)
    requires |bs| >= 3
    ensures [bs[0], bs[1], bs[2]] + bs[3..] == bs
  {
  }

  lemma DecodeQuadThen(b0: Utf8.byte, b1: Utf8.byte, b2: Utf8.byte, rest: string, tail: seq<Utf8.byte>)
    requires Base64UrlDecode(rest) == Some(tail)
    ensures Base64UrlDecode(Quad(b0, b1, b2) + rest) == Some([b0, b1, b2] + tail)
  {
    DecodeQuad(b0, b1, b2, rest);
  }

  /** The decoder takes four characters of known values off the front. */
  lemma DecodeGroup(s: string, v0: nat, v1: nat, v2: nat, v3: nat)
    requires |s| >= 4
    requires SextetValue(s[0]) == Some(v0) && SextetValue(s[1]) == Some(v1)
    requires SextetValue(s[2]) == Some(v2) && SextetValue(s[3]) == Some(v3)
    ensures Base64UrlDecode(s) ==
      match Base64UrlDecode(s[4..])
      case None => None
      case Some(tail) => Some([v0 * 4 + v1 / 16, (v1 % 16) * 16 + v2 / 4, (v2 % 4) * 64 + v3] + tail)
  {
  }

  lemma DecodeTail(bs: seq<Utf8.byte>)
    requires |bs| < 3
    ensures Base64UrlDecode(Base64Url(bs)) == Some(bs)
  {
    if |bs| == 2 {
      DecodeTwo(bs);
    } else if |bs| == 1 {
      DecodeOne(bs);
    }
  }

  lemma DecodeTwo(bs: seq<Utf8.byte>)
    requires |bs| == 2
    ensures Base64UrlDecode(Base64Url(bs)) == Some(bs)
  {
    EncodeTwo(bs);
    DecodeTriple(bs[0], bs[1]);
    assert [bs[0], bs[1]] == bs;
  }

  /** The three characters of a final two bytes decode back to them. */
  lemma DecodeTriple(b0: Utf8.byte, b1: Utf8.byte)
    ensures Base64UrlDecode(Triple(b0, b1)) == Some([b0, b1])
  {
    var t := Triple(b0, b1);
    var c0, c1, c2 := b0 / 4, (b0 % 4) * 16 + b1 / 16, (b1 % 16) * 4;
    TailBounds(b0, b1);
    SextetRoundTrip(c0);
    SextetRoundTrip(c1);
    SextetRoundTrip(c2);
    DecodeThree(t, c0, c1, c2);
    TailArithmetic(b0, b1);
  }

  /** The decoder turns a final three characters of known values into two
      bytes. */
  lemma DecodeThree(s: string, v0: nat, v1: nat, v2: nat)
    requires |s| == 3
    requires SextetValue(s[0]) == Some(v0) && SextetValue(s[1]) == Some(v1) && SextetValue(s[2]) == Some(v2)
    ensures Base64UrlDecode(s) == Some([v0 * 4 + v1 / 16, (v1 % 16) * 16 + v2 / 4])
  {
  }

  lemma EncodeTwo(bs: seq<Utf8.byte>)
    requires |bs| == 2
    ensures Base64Url(bs) == Triple(bs[0], bs[1])
  {
  }

  lemma TailBounds(b0: Utf8.byte, b1: Utf8.byte)
    ensures b0 / 4 < 64 && (b0 % 4) * 16 + b1 / 16 < 64 && (b1 % 16) * 4 < 64
  {
  }

  /** A final three characters decode to two bytes. */
  lemma DecodeThreeChars(c0: nat, c1: nat, c2: nat)
    requires c0 < 64 && c1 < 64 && c2 < 64
    requires c0 * 4 + c1 / 16 < 256 && (c1 % 16) * 16 + c2 / 4 < 256
    ensures Base64UrlDecode([Sextet(c0), Sextet(c1), Sextet(c2)]) == Some([c0 * 4 + c1 / 16, (c1 % 16) * 16 + c2 / 4])
  {
    SextetRoundTrip(c0);
    SextetRoundTrip(c1);
    SextetRoundTrip(c2);
  }

  lemma DecodeOne(bs: seq<Utf8.byte>)
    requires |bs| == 1
    ensures Base64UrlDecode(Base64Url(bs)) == Some(bs)
  {
    var b0 := bs[0];
    var c0, c1 := b0 / 4, (b0 % 4) * 16;
    assert Base64Url(bs) == [Sextet(c0), Sextet(c1)];
    DecodeTwoChars(c0, c1);
    TailArithmetic(b0, 0);
    assert [b0] == bs;
  }

  /** A final two characters decode to one byte. */
  lemma DecodeTwoChars(c0: nat, c1: nat)
    requires c0 < 64 && c1 < 64 && c0 * 4 + c1 / 16 < 256
    ensures Base64UrlDecode([Sextet(c0), Sextet(c1)]) == Some([c0 * 4 + c1 / 16])
  {
    SextetRoundTrip(c0);
    SextetRoundTrip(c1);
  }

  lemma {:induction false} Base64UrlRoundTrip(bs: seq<Utf8.byte>)
    ensures Base64UrlDecode(Base64Url(bs)) == Some(bs)
    decreases |bs|
  {
    if |bs| >= 3 {
      var rest := Base64Url(bs[3..]);
      EncodeGroup(bs);
      Base64UrlRoundTrip(bs[3..]);
      DecodeQuadThen(bs[0], bs[1], bs[2], rest, bs[3..]);
      GroupSplit(bs);
    } else {
      DecodeTail(bs);
    }
  }

  /** The encoding is one-to-one. */
  lemma Base64UrlInjective(a: seq<Utf8.byte>, b: seq<Utf8.byte>)
    requires Base64Url(a) == Base64Url(b)
    ensures a == b
  {
    Base64UrlRoundTrip(a);
    Base64UrlRoundTrip(b);
  }

  /** URL-alphabet text needs no escaping in a query. */
  lemma UrlCharsUnreserved(s: string)
    requires forall i | 0 <= i < |s| :: IsUrlChar(s[i])
    ensures UnreservedText(s)
  {
  }
}
