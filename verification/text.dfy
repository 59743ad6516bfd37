/** The pieces of Go's `strings` and `strconv` packages the services rely
    on, over strings of runes. */
module Text {
  import opened Wrappers

  /** `unicode.IsSpace`: the Latin-1 spaces plus the Unicode White_Space
      runes above U+00FF. */
  predicate IsSpace(c: char) {
    || c == '\t' || c == '\n' || c == '\U{000B}' || c == '\U{000C}' || c == '\r' || c == ' '
    || c == '\U{0085}' || c == '\U{00A0}' || c == '\U{1680}'
    || ('\U{2000}' <= c <= '\U{200A}')
    || c == '\U{2028}' || c == '\U{2029}' || c == '\U{202F}' || c == '\U{205F}' || c == '\U{3000}'
  }

  predicate AllSpace(s: string) {
    forall i | 0 <= i < |s| :: IsSpace(s[i])
  }

  function TrimLeftSpace(s: string): (r: string)
    ensures |r| <= |s| && r == s[|s| - |r|..]
    ensures |r| > 0 ==> !IsSpace(r[0])
    ensures AllSpace(s[..|s| - |r|])
    ensures forall c | c in r :: c in s
  {
    if |s| > 0 && IsSpace(s[0]) then TrimLeftSpace(s[1..]) else s
  }

  function TrimRightSpace(s: string): (r: string)
    ensures |r| <= |s| && r == s[..|r|]
    ensures |r| > 0 ==> !IsSpace(r[|r| - 1])
    ensures AllSpace(s[|r|..])
    ensures forall c | c in r :: c in s
  {
    if |s| > 0 && IsSpace(s[|s| - 1]) then TrimRightSpace(s[..|s| - 1]) else s
  }

  /** `strings.TrimSpace`. */
  function TrimSpace(s: string): (r: string)
    ensures |r| <= |s|
    ensures |r| > 0 ==> !IsSpace(r[0]) && !IsSpace(r[|r| - 1])
    ensures forall c | c in r :: c in s
  {
    TrimRightSpace(TrimLeftSpace(s))
  }

  /** What `TrimSpace` promises: the result is the slice of the input left
      after cutting a run of spaces from each end, and it neither starts nor
      ends with a space. */
  lemma TrimSpaceSpec(s: string)
    ensures var r := TrimSpace(s);
      && (exists a | 0 <= a <= |s| - |r| :: r == s[a..a + |r|] && AllSpace(s[..a]) && AllSpace(s[a + |r|..]))
      && (|r| > 0 ==> !IsSpace(r[0]) && !IsSpace(r[|r| - 1]))
  {
    var l := TrimLeftSpace(s);
    var r := TrimRightSpace(l);
    var a := |s| - |l|;
    assert r == s[a..a + |r|];
    assert s[a + |r|..] == l[|r|..];
  }

  lemma TrimSpaceEmptyIff(s: string)
    ensures TrimSpace(s) == "" <==> AllSpace(s)
  {
    var l := TrimLeftSpace(s);
    if TrimSpace(s) == "" {
      assert l[0..] == l;
      assert s == s[..|s| - |l|] + l;
    }
  }

  lemma TrimSpaceIdempotent(s: string)
    ensures TrimSpace(TrimSpace(s)) == TrimSpace(s)
  {
  }

  predicate HasPrefix(s: string, p: string) {
    |p| <= |s| && s[..|p|] == p
  }

  /** `strings.TrimPrefix`. */
  function TrimPrefix(s: string, p: string): (r: string)
    ensures HasPrefix(s, p) ==> s == p + r
    ensures !HasPrefix(s, p) ==> r == s
  {
    if HasPrefix(s, p) then s[|p|..] else s
  }

  /** `strings.TrimLeft(s, cutset)`. */
  function TrimLeftSet(s: string, cutset: set<char>): (r: string)
    ensures |r| <= |s| && r == s[|s| - |r|..]
    ensures |r| > 0 ==> r[0] !in cutset
    ensures forall i | 0 <= i < |s| - |r| :: s[i] in cutset
  {
    if |s| > 0 && s[0] in cutset then TrimLeftSet(s[1..], cutset) else s
  }

  /** `strings.TrimRight(s, cutset)` with a one-rune cutset. */
  function TrimRightChar(s: string, c: char): (r: string)
    ensures |r| <= |s| && r == s[..|r|]
    ensures |r| > 0 ==> r[|r| - 1] != c
    ensures forall i | |r| <= i < |s| :: s[i] == c
  {
    if |s| > 0 && s[|s| - 1] == c then TrimRightChar(s[..|s| - 1], c) else s
  }

  /** `strings.Join`. */
  function Join(parts: seq<string>, sep: string): string
  {
    if |parts| == 0 then ""
    else if |parts| == 1 then parts[0]
    else parts[0] + sep + Join(parts[1..], sep)
  }

  /** `strings.Split(s, string(c))`: never empty; its pieces hold no `c`. */
  function Split(s: string, c: char): (r: seq<string>)
    ensures |r| >= 1
    ensures forall k | 0 <= k < |r| :: c !in r[k]
  {
    if |s| == 0 then [""]
    else
      var rest := Split(s[1..], c);
      if s[0] == c then [""] + rest
      else [[s[0]] + rest[0]] + rest[1..]
  }

  /** Splitting and joining on the same separator gives the input back. */
  lemma {:induction false} JoinSplit(s: string, c: char)
    ensures Join(Split(s, c), [c]) == s
  {
    if |s| > 0 {
      var rest := Split(s[1..], c);
      JoinSplit(s[1..], c);
      if s[0] == c {
        assert Split(s, c) == [""] + rest;
        assert Join([""] + rest, [c]) == "" + [c] + Join(rest, [c]);
      } else {
        var r := [[s[0]] + rest[0]] + rest[1..];
        if |rest| == 1 {
          assert r == [[s[0]] + rest[0]];
        } else {
          assert r[1..] == rest[1..];
          assert Join(rest, [c]) == rest[0] + [c] + Join(rest[1..], [c]);
        }
      }
    }
  }

  /** Joining separator-free pieces and splitting again gives the pieces
      back. */
  lemma {:induction false} SplitJoin(parts: seq<string>, c: char)
    requires |parts| >= 1
    requires forall k | 0 <= k < |parts| :: c !in parts[k]
    ensures Split(Join(parts, [c]), c) == parts
  {
    if |parts| == 1 {
      SplitNoSep(parts[0], c);
    } else {
      SplitJoin(parts[1..], c);
      SplitAppend(parts[0], Join(parts[1..], [c]), c);
      assert parts == [parts[0]] + parts[1..];
    }
  }

  lemma {:induction false} SplitNoSep(s: string, c: char)
    requires c !in s
    ensures Split(s, c) == [s]
  {
    if |s| > 0 {
      SplitNoSep(s[1..], c);
      assert [s[0]] + s[1..] == s;
    }
  }

  lemma {:induction false} SplitAppend(a: string, b: string, c: char)
    requires c !in a
    ensures Split(a + [c] + b, c) == [a] + Split(b, c)
  {
    if |a| == 0 {
      assert a + [c] + b == [c] + b;
      assert ([c] + b)[1..] == b;
    } else {
      SplitAppend(a[1..], b, c);
      assert (a + [c] + b)[1..] == a[1..] + [c] + b;
      assert [a[0]] + a[1..] == a;
    }
  }

  /** `sub` occurs in `s` starting at position `j`. */
  predicate OccursAt(s: string, sub: string, j: nat) {
    j + |sub| <= |s| && s[j..j + |sub|] == sub
  }

  /** `strings.Index`: the first position at which `sub` occurs. */
  function IndexOf(s: string, sub: string): (r: Option<nat>)
    ensures r.Some? ==> OccursAt(s, sub, r.value)
    ensures r.Some? ==> forall j: nat | j < r.value :: !OccursAt(s, sub, j)
    ensures r.None? ==> forall j: nat :: !OccursAt(s, sub, j)
  {
    if |sub| > |s| then None
    else if s[..|sub|] == sub then Some(0)
    else
      var t := s[1..];
      assert forall j: nat | 1 <= j :: OccursAt(s, sub, j) == OccursAt(t, sub, j - 1) by {
        forall j: nat | 1 <= j
          ensures OccursAt(s, sub, j) == OccursAt(t, sub, j - 1)
        {
          if j + |sub| <= |s| {
            assert s[j..j + |sub|] == t[j - 1..j - 1 + |sub|];
          }
        }
      }
      match IndexOf(t, sub)
      case None => None
      case Some(i) => Some(i + 1)
  }

  /** `strings.ReplaceAll(s, "\r\n", "\n")`, scanning left to right. */
  function NormalizeCrlf(s: string): (r: string)
    ensures |r| <= |s|
    ensures '\r' !in s ==> r == s
  {
    if |s| >= 2 && s[0] == '\r' && s[1] == '\n' then "\n" + NormalizeCrlf(s[2..])
    else if |s| == 0 then ""
    else [s[0]] + NormalizeCrlf(s[1..])
  }

  /** Lower-casing of ASCII letters; every other rune is kept. */
  function LowerAscii(c: char): char {
    if 'A' <= c <= 'Z' then (c as int + 32) as char else c
  }

  /** `strings.ToLower` on the inputs the services lower (request type
      fields and file extensions). */
  function ToLower(s: string): (r: string)
    ensures |r| == |s|
    ensures forall i | 0 <= i < |s| :: r[i] == LowerAscii(s[i])
  {
    if |s| == 0 then "" else [LowerAscii(s[0])] + ToLower(s[1..])
  }

  /** The flattening of a sequence of strings (a `strings.Builder` fed the
      pieces in order), or of byte chunks. */
  function Concat<T>(parts: seq<seq<T>>): seq<T> {
    if |parts| == 0 then [] else parts[0] + Concat(parts[1..])
  }

  lemma {:induction false} ConcatAppend<T>(a: seq<seq<T>>, b: seq<seq<T>>)
    ensures Concat(a + b) == Concat(a) + Concat(b)
  {
    if |a| > 0 {
      ConcatAppend(a[1..], b);
      assert (a + b)[1..] == a[1..] + b;
    } else {
      assert a + b == b;
    }
  }

  /* ---------------- decimal numerals (`%d`, strconv.Itoa) ---------------- */

  predicate IsDigit(c: char) {
    '0' <= c <= '9'
  }

  function DigitChar(d: nat): char
    requires d < 10
  {
    ('0' as int + d) as char
  }

  function NatDigits(n: nat): (r: string)
    ensures |r| >= 1
    ensures forall i | 0 <= i < |r| :: IsDigit(r[i])
  {
    if n < 10 then [DigitChar(n)] else NatDigits(n / 10) + [DigitChar(n % 10)]
  }

  /** Go's `%d` / `strconv.Itoa` / `strconv.FormatInt(n, 10)`. */
  function Decimal(n: int): string {
    if n < 0 then "-" + NatDigits(-n) else NatDigits(n)
  }

  function ParseDigits(s: string): nat
    requires |s| >= 1
    requires forall i | 0 <= i < |s| :: IsDigit(s[i])
  {
    assert IsDigit(s[|s| - 1]);
    var d := s[|s| - 1] as int - '0' as int;
    if |s| == 1 then d else ParseDigits(s[..|s| - 1]) * 10 + d
  }

  /** Reads back a numeral written by `Decimal`. */
  function ParseDecimal(s: string): Option<int> {
    if |s| >= 2 && s[0] == '-' && forall i | 1 <= i < |s| :: IsDigit(s[i]) then Some(0 - ParseDigits(s[1..]) as int)
    else if |s| >= 1 && forall i | 0 <= i < |s| :: IsDigit(s[i]) then Some(ParseDigits(s))
    else None
  }

  lemma {:induction false} ParseNatDigits(n: nat)
    ensures ParseDigits(NatDigits(n)) == n
  {
    if n >= 10 {
      ParseNatDigits(n / 10);
      var s := NatDigits(n);
      assert s[..|s| - 1] == NatDigits(n / 10);
    }
  }

  /** The numeral of any integer parses back to that integer, so distinct
      integers have distinct numerals. */
  lemma DecimalRoundTrip(n: int)
    ensures ParseDecimal(Decimal(n)) == Some(n)
  {
    if n < 0 {
      ParseNatDigits(-n);
      var s := Decimal(n);
      assert s[1..] == NatDigits(-n);
    } else {
      ParseNatDigits(n);
    }
  }

  /** The part of `s` after its last `c`, or all of it. */
  function AfterLast(s: string, c: char): (r: string)
    ensures c !in r
    ensures |r| <= |s| && r == s[|s| - |r|..]
  {
    if |s| == 0 then ""
    else if s[|s| - 1] == c then ""
    else AfterLast(s[..|s| - 1], c) + [s[|s| - 1]]
  }

  lemma {:induction false} AfterLastAppend(a: string, b: string, c: char)
    requires |a| > 0 && a[|a| - 1] == c && c !in b
    ensures AfterLast(a + b, c) == b
  {
    if |b| > 0 {
      var ab := a + b;
      var init := b[..|b| - 1];
      var last := b[|b| - 1];
      assert last in b;
      assert ab[|ab| - 1] == last != c;
      assert ab[..|ab| - 1] == a + init;
      assert AfterLast(ab, c) == AfterLast(a + init, c) + [last];
      AfterLastAppend(a, init, c);
      assert init + [last] == b;
    } else {
      assert a + b == a;
    }
  }

  lemma {:induction false} AfterLastNone(s: string, c: char)
    requires c !in s
    ensures AfterLast(s, c) == s
  {
    if |s| > 0 {
      AfterLastNone(s[..|s| - 1], c);
      assert s[..|s| - 1] + [s[|s| - 1]] == s;
    }
  }

  /** Splitting at a separator splits the two sides apart. */
  lemma {:induction false} SplitConcat(a: string, b: string, c: char)
    ensures Split(a + [c] + b, c) == Split(a, c) + Split(b, c)
  {
    if |a| == 0 {
      SplitAppend(a, b, c);
      assert Split(a, c) == [""];
    } else {
      var ab := a + [c] + b;
      assert ab[0] == a[0];
      assert ab[1..] == a[1..] + [c] + b;
      SplitConcat(a[1..], b, c);
    }
  }

  /** Concatenation is associative. */
  lemma ConcatAssoc<T>(a: seq<T>, b: seq<T>, c: seq<T>)
    ensures a + b + c == a + (b + c)
  {
  }
}
