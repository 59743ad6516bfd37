/** UTF-8, the byte form of a Go string. Go indexes, slices and measures
    strings by byte; the model keeps text as runes and passes through this
    module wherever the services look at bytes. */
module Utf8 {
  import opened Wrappers

  type byte = x: int | 0 <= x < 256

  predicate IsContinuation(b: byte) {
    0x80 <= b < 0xC0
  }

  /** `utf8.EncodeRune`. */
  function EncodeRune(c: char): (r: seq<byte>)
    ensures 1 <= |r| <= 4
    ensures r[0] < 0x80 <==> c as int < 0x80
    ensures c as int < 0x80 ==> r == [c as int as byte]
    ensures forall k | 1 <= k < |r| :: IsContinuation(r[k])
  {
    var x := c as int;
    if x < 0x80 then [x as byte]
    else if x < 0x800 then [0xC0 + x / 64, 0x80 + x % 64]
    else if x < 0x10000 then [0xE0 + x / 4096, 0x80 + (x / 64) % 64, 0x80 + x % 64]
    else [0xF0 + x / 262144, 0x80 + (x / 4096) % 64, 0x80 + (x / 64) % 64, 0x80 + x % 64]
  }

  /** `[]byte(s)`. */
  function Encode(s: string): seq<byte> {
    if |s| == 0 then [] else EncodeRune(s[0]) + Encode(s[1..])
  }

  /** `len(s)` of a Go string: its length in bytes. */
  function ByteLen(s: string): nat {
    |Encode(s)|
  }

  /** `utf8.DecodeRune` on well-formed input: the rune that the leading bytes
      encode and how many bytes it takes, or `None` when they are not the
      shortest encoding of a Unicode scalar value. */
  function DecodeRune(bs: seq<byte>): Option<(char, nat)> {
    if |bs| == 0 then None
    else
      var b0: int := bs[0];
      if b0 < 0x80 then Some((b0 as char, 1))
      else if b0 < 0xC0 then None
      else if b0 < 0xE0 then
        if |bs| < 2 || !IsContinuation(bs[1]) then None
        else
          var v := (b0 - 0xC0) * 64 + (bs[1] as int - 0x80);
          if v < 0x80 then None else Some((v as char, 2))
      else if b0 < 0xF0 then
        if |bs| < 3 || !IsContinuation(bs[1]) || !IsContinuation(bs[2]) then None
        else
          var v := (b0 - 0xE0) * 4096 + (bs[1] as int - 0x80) * 64 + (bs[2] as int - 0x80);
          if v < 0x800 || (0xD800 <= v < 0xE000) then None else Some((v as char, 3))
      else if b0 < 0xF8 then
        if |bs| < 4 || !IsContinuation(bs[1]) || !IsContinuation(bs[2]) || !IsContinuation(bs[3]) then None
        else
          var v := (b0 - 0xF0) * 262144 + (bs[1] as int - 0x80) * 4096 + (bs[2] as int - 0x80) * 64 + (bs[3] as int - 0x80);
          if v < 0x10000 || v >= 0x110000 then None else Some((v as char, 4))
      else None
  }

  /** `string(bs)` on well-formed bytes; `None` on the first ill-formed
      sequence. */
  function Decode(bs: seq<byte>): Option<string>
    decreases |bs|
  {
    if |bs| == 0 then Some("")
    else
      match DecodeRune(bs)
      case None => None
      case Some((c, n)) =>
        if n == 0 || n > |bs| then None
        else
          match Decode(bs[n..])
          case None => None
          case Some(rest) => Some([c] + rest)
  }

  lemma Split64(x: int)
    requires 0 <= x
    ensures x == (x / 64) * 64 + x % 64
    ensures (x / 64) / 64 == x / 4096
    ensures (x / 4096) / 64 == x / 262144
  {
  }

  /** The bytes of one rune decode to that rune, whatever follows them. */
  lemma DecodeEncodeRune(c: char, rest: seq<byte>)
    ensures DecodeRune(EncodeRune(c) + rest) == Some((c, |EncodeRune(c)|))
  {
    var x := c as int;
    var bs := EncodeRune(c) + rest;
    Split64(x);
    Split64(x / 64);
    Split64(x / 4096);
    if x < 0x80 {
    } else if x < 0x800 {
      assert (bs[0] as int - 0xC0) * 64 + (bs[1] as int - 0x80) == x;
    } else if x < 0x10000 {
      assert (bs[0] as int - 0xE0) * 4096 + (bs[1] as int - 0x80) * 64 + (bs[2] as int - 0x80) == x;
    } else {
      assert (bs[0] as int - 0xF0) * 262144 + (bs[1] as int - 0x80) * 4096 + (bs[2] as int - 0x80) * 64 + (bs[3] as int - 0x80) == x;
    }
  }

  /** Encoding loses nothing: the bytes of any string decode back to it. */
  lemma {:induction false} DecodeEncode(s: string)
    ensures Decode(Encode(s)) == Some(s)
  {
    if |s| > 0 {
      var e := EncodeRune(s[0]);
      DecodeEncodeRune(s[0], Encode(s[1..]));
      DecodeEncode(s[1..]);
      assert (e + Encode(s[1..]))[|e|..] == Encode(s[1..]);
      assert [s[0]] + s[1..] == s;
    }
  }

  lemma {:induction false} EncodeAppend(a: string, b: string)
    ensures Encode(a + b) == Encode(a) + Encode(b)
  {
    if |a| == 0 {
      assert a + b == b;
    } else {
      var ab := a + b;
      assert ab[0] == a[0] && ab[1..] == a[1..] + b;
      EncodeAppend(a[1..], b);
      EncodeFirst(ab);
      EncodeFirst(a);
      BytesAssoc(EncodeRune(a[0]), Encode(a[1..]), Encode(b));
    }
  }

  /** A non-empty string's bytes are those of its first rune, then the rest. */
  lemma EncodeFirst(s: string)
    requires |s| > 0
    ensures Encode(s) == EncodeRune(s[0]) + Encode(s[1..])
  {
  }

  lemma BytesAssoc(x: seq<byte>, y: seq<byte>, z: seq<byte>)
    ensures x + (y + z) == (x + y) + z
  {
  }

  /** An ASCII string is its own byte string. */
  lemma {:induction false} EncodeAscii(s: string)
    requires forall i | 0 <= i < |s| :: s[i] as int < 0x80
    ensures |Encode(s)| == |s|
    ensures forall i | 0 <= i < |s| :: Encode(s)[i] == s[i] as int
  {
    if |s| > 0 {
      EncodeAscii(s[1..]);
    }
  }

  /** The first byte of a non-empty string is an ASCII byte exactly when its
      first rune is ASCII, and then they are equal. */
  lemma FirstByte(s: string)
    requires |s| > 0
    ensures |Encode(s)| > 0 && Encode(s)[0] == EncodeRune(s[0])[0]
    ensures Encode(s)[0] < 0x80 <==> s[0] as int < 0x80
    ensures s[0] as int < 0x80 ==> Encode(s)[0] == s[0] as int
  {
  }
}
