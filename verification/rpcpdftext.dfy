/** The rpc service's own `cleanPdfText` and `isNewParagraph`, used on text
    read from a referenced PDF: blank lines are dropped, trimmed lines are
    written back to back, and a line break is kept only before a line that
    looks like the start of a paragraph. */
module RpcPdfText {
  import opened Text
  import Utf8

  predicate IsUpper(c: char) {
    'A' <= c <= 'Z'
  }

  /** `isNewParagraph`: looks at the first BYTE of the trimmed line and
      tests it against 'A'..'Z' and against U+4E00..U+9FA5. */
  function IsNewParagraph(s: string): bool {
    var t := TrimSpace(s);
    var bs := Utf8.Encode(t);
    if |bs| == 0 then false
    else
      var first := bs[0];
      ('A' as int <= first <= 'Z' as int) || (0x4E00 <= first <= 0x9FA5)
  }

  /** A single byte never reaches U+4E00, so `isNewParagraph` holds exactly
      when the trimmed line starts with an ASCII capital: a line starting
      with a Chinese character is never a new paragraph. */
  lemma IsNewParagraphIff(s: string)
    ensures IsNewParagraph(s) <==> |TrimSpace(s)| > 0 && IsUpper(TrimSpace(s)[0])
  {
    var t := TrimSpace(s);
    if |t| > 0 {
      Utf8.FirstByte(t);
    }
  }

  /** The text written for line `i`: nothing for a blank line, otherwise the
      trimmed line, with "\n" when the next raw line starts a paragraph. */
  function Piece(lines: seq<string>, i: nat): string
    requires i < |lines|
  {
    var t := TrimSpace(lines[i]);
    if t == "" then ""
    else if i < |lines| - 1 && IsNewParagraph(lines[i + 1]) then t + "\n"
    else t
  }

  lemma PieceShape(lines: seq<string>, i: nat)
    requires i < |lines|
    requires '\n' !in lines[i]
    ensures var t, p := TrimSpace(lines[i]), Piece(lines, i);
      && '\n' !in t
      && (p == t || (p == t + "\n" && i + 1 < |lines| && |TrimSpace(lines[i + 1])| > 0 && IsUpper(TrimSpace(lines[i + 1])[0])))
      && (IsNewParagraph(lines[i]) ==> |p| > 0 && IsUpper(p[0]))
  {
    IsNewParagraphIff(lines[i]);
    if i + 1 < |lines| {
      IsNewParagraphIff(lines[i + 1]);
    }
  }

  /** Every line break is directly followed by an ASCII capital. */
  predicate BreaksBeforeUpper(s: string) {
    forall k | 0 <= k < |s| && s[k] == '\n' :: k + 1 < |s| && IsUpper(s[k + 1])
  }

  lemma BreaksAppend(t: string, withBreak: bool, rest: string)
    requires '\n' !in t
    requires BreaksBeforeUpper(rest)
    requires withBreak ==> |rest| > 0 && IsUpper(rest[0])
    ensures BreaksBeforeUpper((if withBreak then t + "\n" else t) + rest)
  {
    var p := if withBreak then t + "\n" else t;
    var r := p + rest;
    forall k | 0 <= k < |r| && r[k] == '\n'
      ensures k + 1 < |r| && IsUpper(r[k + 1])
    {
      if k >= |p| {
        assert r[k] == rest[k - |p|];
        assert r[k + 1] == rest[k + 1 - |p|];
      } else if k == |t| {
        assert r[k + 1] == rest[0];
      }
    }
  }

  /** The output from line `i` on. Every "\n" in it is directly followed by
      an ASCII capital, and it starts with one when line `i` starts a
      paragraph. */
  function CleanFrom(lines: seq<string>, i: nat): (r: string)
    requires i <= |lines|
    requires forall k | 0 <= k < |lines| :: '\n' !in lines[k]
    ensures BreaksBeforeUpper(r)
    ensures i < |lines| && IsNewParagraph(lines[i]) ==> |r| > 0 && IsUpper(r[0])
    decreases |lines| - i
  {
    if i == |lines| then ""
    else
      var rest := CleanFrom(lines, i + 1);
      PieceShape(lines, i);
      var t := TrimSpace(lines[i]);
      var withBreak := Piece(lines, i) != t;
      BreaksAppend(t, withBreak, rest);
      Piece(lines, i) + rest
  }

  function CleanPdfText(raw: string): (r: string)
    ensures BreaksBeforeUpper(r)
  {
    CleanFrom(Split(raw, '\n'), 0)
  }

  /** The text with its line breaks removed. */
  function DropBreaks(s: string): (r: string) {
    if |s| == 0 then ""
    else if s[0] == '\n' then DropBreaks(s[1..])
    else [s[0]] + DropBreaks(s[1..])
  }

  lemma {:induction false} DropBreaksAppend(a: string, b: string)
    ensures DropBreaks(a + b) == DropBreaks(a) + DropBreaks(b)
  {
    if |a| == 0 {
      assert a + b == b;
    } else {
      var ab := a + b;
      assert ab[0] == a[0];
      assert ab[1..] == a[1..] + b;
      DropBreaksAppend(a[1..], b);
      if a[0] != '\n' {
        ConcatAssoc([a[0]], DropBreaks(a[1..]), DropBreaks(b));
      }
    }
  }

  lemma {:induction false} DropBreaksNone(s: string)
    requires '\n' !in s
    ensures DropBreaks(s) == s
  {
    if |s| > 0 {
      DropBreaksNone(s[1..]);
    }
  }

  /** The trimmed lines from `i` on, back to back. */
  function TrimmedFrom(lines: seq<string>, i: nat): string
    requires i <= |lines|
    decreases |lines| - i
  {
    if i == |lines| then "" else TrimSpace(lines[i]) + TrimmedFrom(lines, i + 1)
  }

  /** Apart from the line breaks it inserts, the cleaner writes exactly the
      trimmed lines in order: nothing is lost, reordered or added. */
  lemma {:induction false} CleanKeepsText(lines: seq<string>, i: nat)
    requires i <= |lines|
    requires forall k | 0 <= k < |lines| :: '\n' !in lines[k]
    ensures DropBreaks(CleanFrom(lines, i)) == TrimmedFrom(lines, i)
    decreases |lines| - i
  {
    if i < |lines| {
      var t := TrimSpace(lines[i]);
      var p := Piece(lines, i);
      assert CleanFrom(lines, i) == p + CleanFrom(lines, i + 1);
      CleanKeepsText(lines, i + 1);
      DropBreaksAppend(p, CleanFrom(lines, i + 1));
      PieceShape(lines, i);
      DropBreaksNone(t);
      if p == t + "\n" {
        DropBreaksAppend(t, "\n");
        assert DropBreaks("\n") == "";
      }
      assert DropBreaks(p) == t;
      assert DropBreaks(CleanFrom(lines, i)) == t + TrimmedFrom(lines, i + 1);
    }
  }
}
