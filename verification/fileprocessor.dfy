/** `cleanPdfText` of pkg/fileprocessor: text extracted from a PDF is
    re-flowed so that only paragraph breaks survive. Lines are trimmed;
    the non-blank lines of a run are joined with single spaces; a blank line
    closes the paragraph, which is then followed by "\n\n". */
module FileProcessor {
  import opened Text

  /** A paragraph as the cleaner emits it: non-empty, a single line, with no
      white space at either end. */
  predicate CleanParagraph(p: string) {
    |p| > 0 && '\n' !in p && !IsSpace(p[0]) && !IsSpace(p[|p| - 1])
  }

  predicate AllClean(ps: seq<string>) {
    forall k | 0 <= k < |ps| :: CleanParagraph(ps[k])
  }

  /** Paragraphs each followed by the "\n\n" separator. */
  function Closed(ps: seq<string>): string {
    if |ps| == 0 then "" else ps[0] + "\n\n" + Closed(ps[1..])
  }

  /** The paragraph after one more non-blank (already trimmed) line. */
  function Extend(paragraph: string, line: string): string {
    if |paragraph| > 0 then paragraph + " " + line else line
  }

  /** The loop over the trimmed lines: `out` is what has been written,
      `paragraph` the paragraph being built. */
  function Fold(lines: seq<string>, out: string, paragraph: string): string {
    if |lines| == 0 then
      if |paragraph| > 0 then out + paragraph else out
    else if lines[0] == "" then
      if |paragraph| > 0 then Fold(lines[1..], out + paragraph + "\n\n", "")
      else Fold(lines[1..], out, "")
    else Fold(lines[1..], out, Extend(paragraph, lines[0]))
  }

  /** Each line trimmed; the loop trims every line before looking at it. */
  function TrimAll(lines: seq<string>): (r: seq<string>)
    ensures |r| == |lines|
    ensures forall k | 0 <= k < |lines| :: r[k] == TrimSpace(lines[k])
  {
    seq(|lines|, k requires 0 <= k < |lines| => TrimSpace(lines[k]))
  }

  function CleanPdfText(raw: string): string {
    Fold(TrimAll(Split(raw, '\n')), "", "")
  }

  /** A trimmed line: empty, or a clean paragraph on its own. */
  predicate Trimmed(line: string) {
    line == "" || CleanParagraph(line)
  }

  lemma TrimmedLine(s: string)
    requires '\n' !in s
    ensures Trimmed(TrimSpace(s))
  {
  }

  lemma ExtendClean(paragraph: string, t: string)
    requires paragraph == "" || CleanParagraph(paragraph)
    requires CleanParagraph(t)
    ensures CleanParagraph(Extend(paragraph, t))
  {
    if |paragraph| > 0 {
      var e := paragraph + " " + t;
      assert e[0] == paragraph[0];
      assert e[|e| - 1] == t[|t| - 1];
    }
  }

  lemma ClosedAppend(ps: seq<string>, p: string)
    ensures Closed(ps + [p]) == Closed(ps) + p + "\n\n"
  {
    if |ps| > 0 {
      assert (ps + [p])[1..] == ps[1..] + [p];
      ClosedAppend(ps[1..], p);
    } else {
      assert ps + [p] == [p];
    }
  }

  /** The shape of whatever the loop writes: closed clean paragraphs, then
      possibly one clean paragraph without a separator. */
  lemma {:induction false} FoldShape(lines: seq<string>, out: string, paragraph: string)
    returns (ps: seq<string>, tail: string)
    requires forall k | 0 <= k < |lines| :: Trimmed(lines[k])
    requires Trimmed(paragraph)
    ensures Fold(lines, out, paragraph) == out + Closed(ps) + tail
    ensures AllClean(ps)
    ensures Trimmed(tail)
  {
    if |lines| == 0 {
      ps, tail := [], paragraph;
    } else if lines[0] == "" {
      if |paragraph| > 0 {
        var ps', tail' := FoldShape(lines[1..], out + paragraph + "\n\n", "");
        ps, tail := [paragraph] + ps', tail';
        ClosedCons(paragraph, ps');
        Assoc(out, paragraph, Closed(ps'), tail');
      } else {
        ps, tail := FoldShape(lines[1..], out, "");
      }
    } else {
      ExtendClean(paragraph, lines[0]);
      ps, tail := FoldShape(lines[1..], out, Extend(paragraph, lines[0]));
    }
  }

  lemma ClosedCons(p: string, ps: seq<string>)
    ensures Closed([p] + ps) == p + "\n\n" + Closed(ps)
  {
    assert ([p] + ps)[1..] == ps;
  }

  /** Whatever `CleanPdfText` returns is a sequence of clean paragraphs,
      each closed by "\n\n", possibly followed by one more clean paragraph.
      Hence the output never starts with white space, and its only line
      breaks are the "\n\n" separators. */
  lemma CleanPdfTextShape(raw: string) returns (ps: seq<string>, tail: string)
    ensures CleanPdfText(raw) == Closed(ps) + tail
    ensures AllClean(ps)
    ensures Trimmed(tail)
  {
    var lines := TrimAll(Split(raw, '\n'));
    TrimAllLines(Split(raw, '\n'));
    ps, tail := FoldShape(lines, "", "");
  }

  /** Lines without a line break are trimmed by trimming. */
  lemma TrimAllLines(parts: seq<string>)
    requires forall k | 0 <= k < |parts| :: '\n' !in parts[k]
    ensures forall k | 0 <= k < |parts| :: Trimmed(TrimAll(parts)[k])
  {
    forall k | 0 <= k < |parts|
      ensures Trimmed(TrimAll(parts)[k])
    {
      TrimmedLine(parts[k]);
    }
  }

  /** The raw lines of a cleaned text: each paragraph, then an empty line
      for the blank between separators, then the tail. */
  function Lines(ps: seq<string>, tail: string): seq<string> {
    if |ps| == 0 then [tail] else [ps[0], ""] + Lines(ps[1..], tail)
  }

  lemma {:induction false} JoinLines(ps: seq<string>, tail: string)
    ensures Join(Lines(ps, tail), "\n") == Closed(ps) + tail
  {
    if |ps| > 0 {
      JoinLines(ps[1..], tail);
      var rest := Lines(ps[1..], tail);
      assert Lines(ps, tail) == [ps[0], ""] + rest;
      assert ([ps[0], ""] + rest)[1..] == [""] + rest;
      assert ([""] + rest)[1..] == rest;
    }
  }

  lemma {:induction false} LinesTrimmed(ps: seq<string>, tail: string)
    requires AllClean(ps)
    requires Trimmed(tail)
    ensures |Lines(ps, tail)| >= 1
    ensures forall k | 0 <= k < |Lines(ps, tail)| :: Trimmed(Lines(ps, tail)[k])
  {
    if |ps| > 0 {
      LinesTrimmed(ps[1..], tail);
    }
  }

  lemma CleanTrims(p: string)
    requires CleanParagraph(p)
    ensures TrimSpace(p) == p
  {
  }

  lemma Assoc(a: string, p: string, c: string, d: string)
    ensures a + p + "\n\n" + c + d == a + (p + "\n\n" + c) + d
  {
  }

  /** A clean paragraph followed by a blank line is written out with its
      separator. */
  lemma FoldParagraphStep(p: string, rest: seq<string>, out: string)
    requires CleanParagraph(p)
    ensures Fold([p, ""] + rest, out, "") == Fold(rest, out + p + "\n\n", "")
  {
    var ls := [p, ""] + rest;
    assert ls[0] == p && ls[1..] == [""] + rest;
    assert ls[1..][0] == "" && ls[1..][1..] == rest;
  }

  lemma FoldTail(tail: string, out: string)
    requires Trimmed(tail)
    ensures Fold([tail], out, "") == out + tail
  {
    assert [tail][1..] == [];
  }

  lemma {:induction false} FoldLines(ps: seq<string>, tail: string, out: string)
    requires AllClean(ps)
    requires Trimmed(tail)
    ensures Fold(Lines(ps, tail), out, "") == out + Closed(ps) + tail
  {
    if |ps| == 0 {
      FoldTail(tail, out);
    } else {
      var rest := Lines(ps[1..], tail);
      var out' := out + ps[0] + "\n\n";
      assert Lines(ps, tail) == [ps[0], ""] + rest;
      FoldParagraphStep(ps[0], rest, out);
      FoldLines(ps[1..], tail, out');
      ClosedCons(ps[0], ps[1..]);
      assert [ps[0]] + ps[1..] == ps;
      Assoc(out, ps[0], Closed(ps[1..]), tail);
    }
  }

  /** Trimmed lines are left as they are by trimming. */
  lemma TrimAllTrimmed(lines: seq<string>)
    requires forall k | 0 <= k < |lines| :: Trimmed(lines[k])
    ensures TrimAll(lines) == lines
  {
    forall k | 0 <= k < |lines|
      ensures TrimSpace(lines[k]) == lines[k]
    {
      if lines[k] != "" {
        CleanTrims(lines[k]);
      }
    }
  }

  /** Splitting a text of the output shape at its newlines gives back its
      lines. */
  lemma SplitClosed(ps: seq<string>, tail: string)
    requires AllClean(ps)
    requires Trimmed(tail)
    ensures Split(Closed(ps) + tail, '\n') == Lines(ps, tail)
  {
    var lines := Lines(ps, tail);
    JoinLines(ps, tail);
    LinesTrimmed(ps, tail);
    forall k | 0 <= k < |lines|
      ensures '\n' !in lines[k]
    {
      assert Trimmed(lines[k]);
    }
    SplitJoin(lines, '\n');
  }

  lemma EmptyLeft(s: string)
    ensures "" + s == s
  {
  }

  /** A text already in the cleaner's output shape is left unchanged. */
  lemma CleanFixesShape(ps: seq<string>, tail: string)
    requires AllClean(ps)
    requires tail == "" || CleanParagraph(tail)
    ensures CleanPdfText(Closed(ps) + tail) == Closed(ps) + tail
  {
    var lines := Lines(ps, tail);
    SplitClosed(ps, tail);
    LinesTrimmed(ps, tail);
    TrimAllTrimmed(lines);
    FoldLines(ps, tail, "");
    EmptyLeft(Closed(ps));
  }

  /** Cleaning is idempotent: a cleaned text is already clean. */
  lemma CleanPdfTextIdempotent(raw: string)
    ensures CleanPdfText(CleanPdfText(raw)) == CleanPdfText(raw)
  {
    var ps, tail := CleanPdfTextShape(raw);
    CleanFixesShape(ps, tail);
  }
}
