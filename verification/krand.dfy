/** `RandomString` of pkg/tool: a string of bytes drawn from a character
    set. The random source is a parameter: `draws[i]` is the raw value
    behind the i-th `rand.Intn(len(charset))`, which yields
    `draws[i] % len(charset)`. */
module Krand {
  import opened Wrappers
  import Utf8

  /** The bytes of "abcdefghijklmnopqrstuvwxyzABCDEFGHIJKLMNOPQRSTUVWXYZ". */
  const Letters: seq<Utf8.byte> := seq(52, i requires 0 <= i < 52 => if i < 26 then 'a' as int + i else 'A' as int + (i - 26))

  /** `rand.Intn(0)` panics. */
  datatype Panic = IntnNonPositive

  method RandomString(length: int, charset: seq<Utf8.byte>, draws: seq<nat>)
    returns (r: Result<seq<Utf8.byte>, Panic>)
    requires |draws| >= length
    ensures length <= 0 ==> r == Ok([])
    ensures r.Err? <==> length > 0 && |charset| == 0
    ensures r.Ok? && length > 0 ==> |r.value| == length
    ensures r.Ok? ==> forall i | 0 <= i < |r.value| :: r.value[i] in charset
    ensures r.Ok? && length > 0 ==>
      forall i | 0 <= i < length :: r.value[i] == charset[draws[i] % |charset|]
  {
    if length <= 0 {
      return Ok([]);
    }
    if |charset| == 0 {
      return Err(IntnNonPositive);
    }
    var result: seq<Utf8.byte> := [];
    var i := 0;
    while i < length
      invariant 0 <= i <= length
      invariant |result| == i
      invariant forall k | 0 <= k < i :: result[k] == charset[draws[k] % |charset|]
    {
      result := result + [charset[draws[i] % |charset|]];
      i := i + 1;
    }
    return Ok(result);
  }

  predicate IsAsciiLetter(b: Utf8.byte) {
    ('a' as int <= b <= 'z' as int) || ('A' as int <= b <= 'Z' as int)
  }

  /** Every byte of `Letters` is an ASCII letter, so a string drawn from it
      is ASCII text of exactly `length` runes. */
  lemma LettersAreAscii()
    ensures |Letters| == 52
    ensures forall i | 0 <= i < |Letters| :: IsAsciiLetter(Letters[i])
  {
  }
}
