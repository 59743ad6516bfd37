/** The fixed texts of the enrichment as the UTF-8 bytes that Go's string
    literals hold, written out byte by byte. */
module EnrichText {
  import Utf8

  /** "[不支持的文件格式]" */
  const UnsupportedBytes: seq<Utf8.byte> :=
    [0x5B, 0xE4, 0xB8, 0x8D, 0xE6, 0x94, 0xAF, 0xE6, 0x8C, 0x81, 0xE7, 0x9A, 0x84,
     0xE6, 0x96, 0x87, 0xE4, 0xBB, 0xB6, 0xE6, 0xA0, 0xBC, 0xE5, 0xBC, 0x8F, 0x5D]
  /** "...(已截断)" */
  const CutMarkBytes: seq<Utf8.byte> :=
    [0x2E, 0x2E, 0x2E, 0x28, 0xE5, 0xB7, 0xB2, 0xE6, 0x88, 0xAA, 0xE6, 0x96, 0xAD, 0x29]
  /** " \n用户提供了一份" */
  const IntroBytes: seq<Utf8.byte> :=
    [0x20, 0x0A, 0xE7, 0x94, 0xA8, 0xE6, 0x88, 0xB7, 0xE6, 0x8F, 0x90, 0xE4,
     0xBE, 0x9B, 0xE4, 0xBA, 0x86, 0xE4, 0xB8, 0x80, 0xE4, 0xBB, 0xBD]
  /** "文件：" */
  const FileBytes: seq<Utf8.byte> := [0xE6, 0x96, 0x87, 0xE4, 0xBB, 0xB6, 0xEF, 0xBC, 0x9A]
  /** "。" */
  const PeriodBytes: seq<Utf8.byte> := [0xE3, 0x80, 0x82]
}

/** Reference enrichment in the rpc `ChatCompletions`: each referenced file
    is either uploaded as the turn's image (.jpg/.png) or read and appended
    to the prompt (.txt/.md/.csv/.docx/.pdf). The prompt is a byte string
    here, because long file contents are cut at a byte offset. */
module Enrich {
  import opened Wrappers
  import opened Text
  import Utf8
  import RpcPdfText
  import opened EnrichText
  import FilePath

  datatype Reference = Reference(refType: string, fileId: string)

  /** Upper-casing of an ASCII letter. */
  function UpperAscii(l: char): char {
    if 'a' <= l <= 'z' then (l as int - 32) as char else l
  }

  /** Case-insensitive matching of the regexp package for a lower-case
      ASCII letter `l`: the letter, its upper case, and the two non-ASCII
      runes that simple case folding adds to 's' (U+017F, long s) and 'k'
      (U+212A, Kelvin sign). */
  predicate FoldsTo(c: char, l: char) {
    || c == l
    || c == UpperAscii(l)
    || (l == 's' && c == '\U{017F}')
    || (l == 'k' && c == '\U{212A}')
  }

  /** `s` matches `word` rune by rune up to case folding. */
  predicate FoldEq(s: string, word: string) {
    && |s| == |word|
    && (|s| == 0 || (FoldsTo(s[|s| - 1], word[|word| - 1]) && FoldEq(s[..|s| - 1], word[..|word| - 1])))
  }

  lemma {:induction false} FoldEqAt(s: string, word: string, j: nat)
    requires FoldEq(s, word) && j < |s|
    ensures FoldsTo(s[j], word[j])
  {
    if j < |s| - 1 {
      FoldEqAt(s[..|s| - 1], word[..|word| - 1], j);
    }
  }

  /** `\.(word)$` under `(?i)`: the name ends with a '.' and then `word`,
      up to case folding. */
  predicate EndsWithExt(name: string, word: string) {
    && |name| > |word|
    && name[|name| - |word| - 1] == '.'
    && FoldEq(name[|name| - |word|..], word)
  }

  /** The alternation of `words`. */
  predicate MatchesAny(name: string, words: seq<string>) {
    |words| > 0 && (EndsWithExt(name, words[0]) || MatchesAny(name, words[1..]))
  }

  const ImageWords: seq<string> := ["jpg", "png"]
  const DocumentWords: seq<string> := ["txt", "md", "csv", "docx", "pdf"]

  /** A folded letter is never '.' or '/'. */
  lemma FoldedLetter(c: char, l: char)
    requires FoldsTo(c, l) && 'a' <= l <= 'z'
    ensures c != '/' && c != '.'
  {
  }

  /** The extension of a matched name is the '.' and the matched word. */
  lemma ExtOfMatch(name: string, word: string)
    requires EndsWithExt(name, word)
    requires forall k | 0 <= k < |word| :: 'a' <= word[k] <= 'z'
    ensures FilePath.Ext(name) == "." + name[|name| - |word|..]
  {
    var n := |name|;
    var start := n - |word|;
    var suffix := name[start..];
    forall j | start - 1 < j < n
      ensures name[j] != '.' && name[j] != FilePath.Sep
    {
      assert suffix[j - start] == name[j];
      FoldEqAt(suffix, word, j - start);
      FoldedLetter(name[j], word[j - start]);
    }
    FilePath.ExtSuffix(name, start - 1);
    assert name[start - 1..] == "." + suffix;
  }

  /** Which reader `ChatCompletions` picks for a lower-cased extension. */
  datatype DocKind = TextDoc | DocxDoc | PdfDoc | Unsupported

  function KindOf(ext: string): (k: DocKind)
    ensures k == Unsupported <==> ext !in {".txt", ".md", ".csv", ".docx", ".pdf"}
  {
    if ext == ".txt" || ext == ".md" || ext == ".csv" then TextDoc
    else if ext == ".docx" then DocxDoc
    else if ext == ".pdf" then PdfDoc
    else Unsupported
  }

  /** Lower-casing a folded match of a lower-case word without 'k' gives
      the word back, unless the match holds a long s, which lower-casing
      keeps. */
  lemma LowerFolded(s: string, w: string)
    requires FoldEq(s, w)
    requires forall j | 0 <= j < |w| :: 'a' <= w[j] <= 'z' && w[j] != 'k'
    ensures '\U{017F}' in s ==> '\U{017F}' in ToLower(s)
    ensures '\U{017F}' !in s ==> ToLower(s) == w
  {
    var t := ToLower(s);
    if '\U{017F}' in s {
      var j :| 0 <= j < |s| && s[j] == '\U{017F}';
      assert t[j] == '\U{017F}';
    } else {
      forall j | 0 <= j < |s|
        ensures t[j] == w[j]
      {
        FoldEqAt(s, w, j);
        assert s[j] != '\U{017F}';
      }
    }
  }

  lemma LongSUnsupported(ext: string)
    requires '\U{017F}' in ext
    ensures KindOf(ext) == Unsupported
  {
    assert '\U{017F}' !in ".txt" && '\U{017F}' !in ".md" && '\U{017F}' !in ".csv";
    assert '\U{017F}' !in ".docx" && '\U{017F}' !in ".pdf";
  }

  /** The extension a matched document name is read under. Lower-casing
      keeps U+017F, so a name whose matched suffix holds a long s gets an
      extension none of the readers accepts. */
  lemma MatchedKind(name: string, k: nat)
    requires k < |DocumentWords| && EndsWithExt(name, DocumentWords[k])
    ensures var w := DocumentWords[k];
      KindOf(ToLower(FilePath.Ext(name))) == Unsupported <==> '\U{017F}' in name[|name| - |w|..]
  {
    var w := DocumentWords[k];
    var suffix := name[|name| - |w|..];
    MatchedExt(name, k);
    if '\U{017F}' in suffix {
      LongSUnsupported(ToLower(FilePath.Ext(name)));
    } else {
      KnownWord(k);
    }
  }

  lemma WordLetters(k: nat)
    requires k < |DocumentWords|
    ensures forall j | 0 <= j < |DocumentWords[k]| :: 'a' <= DocumentWords[k][j] <= 'z' && DocumentWords[k][j] != 'k'
  {
  }

  /** The lower-cased extension of a matched name is the matched word,
      or holds the long s of the match. */
  lemma MatchedExt(name: string, k: nat)
    requires k < |DocumentWords| && EndsWithExt(name, DocumentWords[k])
    ensures var w, suffix := DocumentWords[k], name[|name| - |DocumentWords[k]|..];
      && ('\U{017F}' in suffix ==> '\U{017F}' in ToLower(FilePath.Ext(name)))
      && ('\U{017F}' !in suffix ==> ToLower(FilePath.Ext(name)) == "." + w)
  {
    var w := DocumentWords[k];
    WordLetters(k);
    ExtOfMatch(name, w);
    var suffix := name[|name| - |w|..];
    var ext := ToLower(FilePath.Ext(name));
    assert ext[1..] == ToLower(suffix);
    LowerFolded(suffix, w);
    if '\U{017F}' in suffix {
      assert '\U{017F}' in ext[1..];
    }
  }

  lemma KnownWord(k: nat)
    requires k < |DocumentWords|
    ensures KindOf("." + DocumentWords[k]) != Unsupported
  {
    if k == 0 {
      assert "." + DocumentWords[k] == ".txt";
    } else if k == 1 {
      assert "." + DocumentWords[k] == ".md";
    } else if k == 2 {
      assert "." + DocumentWords[k] == ".csv";
    } else if k == 3 {
      assert "." + DocumentWords[k] == ".docx";
    } else {
      assert "." + DocumentWords[k] == ".pdf";
    }
  }

  /** The collaborators of the loop: the image upload and the three file
      readers, keyed by file id. */
  datatype Readers = Readers(
    upload: string -> Option<string>,
    readText: string -> Option<seq<Utf8.byte>>,
    readDocx: string -> Option<string>,
    readPdf: string -> Option<string>)  // the PDF's plain text, before cleaning

  const MaxContent := 5000

  /** A content over 5000 bytes keeps its first 5000 bytes and gets the
      truncation mark; the cut may fall inside a rune. */
  function Cut(content: seq<Utf8.byte>): (r: seq<Utf8.byte>)
    ensures |content| <= MaxContent ==> r == content
    ensures |content| > MaxContent ==>
      && |r| == MaxContent + |CutMarkBytes|
      && r[..MaxContent] == content[..MaxContent]
      && r[MaxContent..] == CutMarkBytes
  {
    if |content| > MaxContent then content[..MaxContent] + CutMarkBytes else content
  }

  /** The text appended for one file, as UTF-8:
      " \n用户提供了一份" + ext + "文件：" + content + "。". */
  function Segment(ext: string, content: seq<Utf8.byte>): seq<Utf8.byte> {
    IntroBytes + Utf8.Encode(ext) + FileBytes + Cut(content) + PeriodBytes
  }

  /** The loop state: the prompt so far, the image URL, and whether the
      function-scope `err` is set. */
  datatype Enriched = Enriched(prompt: seq<Utf8.byte>, img: string, err: bool)

  /** The read for one document: its bytes and the new `err`. The
      unsupported branch assigns no error, so it keeps the one left by an
      earlier reference. */
  function Read(kind: DocKind, fileId: string, readers: Readers, err: bool): (r: (seq<Utf8.byte>, bool))
    ensures kind == TextDoc ==> (r.1 <==> readers.readText(fileId).None?)
    ensures kind == DocxDoc ==> (r.1 <==> readers.readDocx(fileId).None?)
    ensures kind == PdfDoc ==> (r.1 <==> readers.readPdf(fileId).None?)
    ensures kind == TextDoc && !r.1 ==> r.0 == readers.readText(fileId).value
    ensures kind == DocxDoc && !r.1 ==> r.0 == Utf8.Encode(readers.readDocx(fileId).value)
    ensures kind == PdfDoc && !r.1 ==> r.0 == Utf8.Encode(RpcPdfText.CleanPdfText(readers.readPdf(fileId).value))
    ensures kind == Unsupported ==> r == (UnsupportedBytes, err)
  {
    match kind
    case TextDoc => (match readers.readText(fileId) case None => ([], true) case Some(b) => (b, false))
    case DocxDoc => (match readers.readDocx(fileId) case None => ([], true) case Some(s) => (Utf8.Encode(s), false))
    case PdfDoc =>
      (match readers.readPdf(fileId)
       case None => ([], true)
       case Some(raw) => (Utf8.Encode(RpcPdfText.CleanPdfText(raw)), false))
    case Unsupported => (UnsupportedBytes, err)
  }

  predicate IsImage(ref: Reference) {
    ref.refType == "file" && MatchesAny(ref.fileId, ImageWords)
  }

  predicate IsDocument(ref: Reference) {
    ref.refType == "file" && !MatchesAny(ref.fileId, ImageWords) && MatchesAny(ref.fileId, DocumentWords)
  }

  /** One iteration of the loop. A failed upload or read skips the
      reference; anything else that is not a matching file is ignored. */
  function Step(st: Enriched, ref: Reference, readers: Readers): (r: Enriched)
    ensures !IsImage(ref) && !IsDocument(ref) ==> r == st
    ensures IsImage(ref) ==> r.prompt == st.prompt && r.err == st.err
    ensures IsImage(ref) && readers.upload(ref.fileId).Some? ==> r.img == readers.upload(ref.fileId).value
    ensures !(IsImage(ref) && readers.upload(ref.fileId).Some?) ==> r.img == st.img
    ensures IsDocument(ref) ==>
      var ext := ToLower(FilePath.Ext(ref.fileId));
      var (content, failed) := Read(KindOf(ext), ref.fileId, readers, st.err);
      && r.img == st.img
      && r.err == failed
      && r.prompt == (if failed then st.prompt else st.prompt + Segment(ext, content))
    ensures |st.prompt| <= |r.prompt| && r.prompt[..|st.prompt|] == st.prompt
  {
    if IsImage(ref) then
      match readers.upload(ref.fileId)
      case None => st
      case Some(url) => st.(img := url)
    else if IsDocument(ref) then
      var ext := ToLower(FilePath.Ext(ref.fileId));
      var (content, err) := Read(KindOf(ext), ref.fileId, readers, st.err);
      if err then st.(err := true)
      else Enriched(st.prompt + Segment(ext, content), st.img, false)
    else st
  }

  /** The loop over the references, in order. The prompt only grows: the
      user's own text always comes first. */
  function EnrichAll(refs: seq<Reference>, readers: Readers, st: Enriched): (r: Enriched)
    ensures |st.prompt| <= |r.prompt| && r.prompt[..|st.prompt|] == st.prompt
    decreases |refs|
  {
    if |refs| == 0 then st
    else
      var before := EnrichAll(refs[..|refs| - 1], readers, st);
      var r := Step(before, refs[|refs| - 1], readers);
      assert r.prompt[..|st.prompt|] == r.prompt[..|before.prompt|][..|st.prompt|];
      r
  }

  /** Reference `k` is an image whose upload succeeded. */
  predicate Uploaded(refs: seq<Reference>, readers: Readers, k: int) {
    0 <= k < |refs| && IsImage(refs[k]) && readers.upload(refs[k].fileId).Some?
  }

  /** The image of the turn is the URL of the LAST successfully uploaded
      image, or the initial one when no upload succeeded. */
  lemma {:induction false} LastImage(refs: seq<Reference>, readers: Readers, st: Enriched) returns (k: int)
    ensures -1 <= k < |refs|
    ensures k == -1 ==> EnrichAll(refs, readers, st).img == st.img && forall j | 0 <= j < |refs| :: !Uploaded(refs, readers, j)
    ensures k >= 0 ==>
      && Uploaded(refs, readers, k)
      && EnrichAll(refs, readers, st).img == readers.upload(refs[k].fileId).value
      && forall j | k < j < |refs| :: !Uploaded(refs, readers, j)
    decreases |refs|
  {
    if |refs| == 0 {
      return -1;
    }
    var n := |refs| - 1;
    var init := refs[..n];
    ImageStep(refs, readers, st);
    if Uploaded(refs, readers, n) {
      return n;
    }
    k := LastImage(init, readers, st);
    forall j | k < j < |refs|
      ensures !Uploaded(refs, readers, j)
    {
      if j < n {
        assert refs[j] == init[j];
        assert !Uploaded(init, readers, j);
      }
    }
    if k >= 0 {
      assert refs[k] == init[k];
    }
  }

  /** The last reference sets the image exactly when it uploads. */
  lemma ImageStep(refs: seq<Reference>, readers: Readers, st: Enriched)
    requires |refs| > 0
    ensures var n := |refs| - 1;
      EnrichAll(refs, readers, st).img
        == if Uploaded(refs, readers, n) then readers.upload(refs[n].fileId).value
           else EnrichAll(refs[..n], readers, st).img
  {
    LastStep(refs, readers, st);
  }

  /** A document reference that one of the readers accepts. */
  predicate Supported(ref: Reference) {
    IsDocument(ref) && KindOf(ToLower(FilePath.Ext(ref.fileId))) != Unsupported
  }

  /** What a supported, readable document contributes; nothing otherwise. */
  function Contribution(ref: Reference, readers: Readers): seq<Utf8.byte> {
    if Supported(ref) then
      var ext := ToLower(FilePath.Ext(ref.fileId));
      var (content, err) := Read(KindOf(ext), ref.fileId, readers, false);
      if err then [] else Segment(ext, content)
    else []
  }

  /** The contributions of all references, in order. */
  function Contributions(refs: seq<Reference>, readers: Readers): seq<Utf8.byte>
    decreases |refs|
  {
    if |refs| == 0 then [] else Contributions(refs[..|refs| - 1], readers) + Contribution(refs[|refs| - 1], readers)
  }

  /** One step adds exactly the contribution of a reference that is not
      unsupported, whatever error an earlier reference left. */
  lemma StepAppends(st: Enriched, ref: Reference, readers: Readers)
    requires IsDocument(ref) ==> Supported(ref)
    ensures Step(st, ref, readers).prompt == st.prompt + Contribution(ref, readers)
  {
    if IsDocument(ref) {
      var ext := ToLower(FilePath.Ext(ref.fileId));
      assert Read(KindOf(ext), ref.fileId, readers, st.err) == Read(KindOf(ext), ref.fileId, readers, false);
    } else {
      assert st.prompt + [] == st.prompt;
    }
  }

  /** Unless some reference hits the unsupported branch, the enriched
      prompt is the user's prompt followed by one segment per readable
      document, in order: unreadable files and everything else add nothing. */
  lemma {:induction false} EnrichAppends(refs: seq<Reference>, readers: Readers, st: Enriched)
    requires forall k | 0 <= k < |refs| :: IsDocument(refs[k]) ==> Supported(refs[k])
    ensures EnrichAll(refs, readers, st).prompt == st.prompt + Contributions(refs, readers)
    decreases |refs|
  {
    if |refs| == 0 {
      assert st.prompt + [] == st.prompt;
    } else {
      var n := |refs| - 1;
      var init := refs[..n];
      assert forall k | 0 <= k < |init| :: init[k] == refs[k];
      EnrichAppends(init, readers, st);
      LastStep(refs, readers, st);
      StepAppends(EnrichAll(init, readers, st), refs[n], readers);
      ConcatAssoc(st.prompt, Contributions(init, readers), Contribution(refs[n], readers));
    }
  }

  /** The loop and the contributions both take the last reference last. */
  lemma LastStep(refs: seq<Reference>, readers: Readers, st: Enriched)
    requires |refs| > 0
    ensures var n := |refs| - 1;
      && EnrichAll(refs, readers, st) == Step(EnrichAll(refs[..n], readers, st), refs[n], readers)
      && Contributions(refs, readers) == Contributions(refs[..n], readers) + Contribution(refs[n], readers)
  {
  }

  /** Matching rune by rune gives `FoldEq`. */
  lemma {:induction false} FoldEqPointwise(s: string, w: string)
    requires |s| == |w| && forall j | 0 <= j < |s| :: FoldsTo(s[j], w[j])
    ensures FoldEq(s, w)
  {
    if |s| > 0 {
      FoldEqPointwise(s[..|s| - 1], w[..|w| - 1]);
    }
  }

  /** "a.txt" is a document read as text. */
  lemma TxtIsText()
    ensures IsDocument(Reference("file", "a.txt"))
    ensures ToLower(FilePath.Ext("a.txt")) == ".txt" && KindOf(".txt") == TextDoc
  {
    TxtMatches();
    ExtOfMatch("a.txt", "txt");
    assert "." + "a.txt"[2..] == ".txt";
  }

  lemma TxtMatches()
    ensures EndsWithExt("a.txt", "txt")
    ensures IsDocument(Reference("file", "a.txt"))
  {
    var name := "a.txt";
    FoldEqPointwise("txt", "txt");
    assert name[2..] == "txt";
    assert EndsWithExt(name, DocumentWords[0]);
    assert !EndsWithExt(name, ImageWords[0]) && !EndsWithExt(name, ImageWords[1]);
  }

  /** "b.c\u017Fv" matches `csv` under case folding, but is read under the
      unsupported extension ".c\u017Fv". */
  lemma LongSIsUnsupported()
    ensures IsDocument(Reference("file", "b.c\U{017F}v"))
    ensures ToLower(FilePath.Ext("b.c\U{017F}v")) == ".c\U{017F}v" && KindOf(".c\U{017F}v") == Unsupported
  {
    LongSMatches();
    ExtOfMatch("b.c\U{017F}v", "csv");
    assert "." + "b.c\U{017F}v"[2..] == ".c\U{017F}v";
    LongSLower();
  }

  lemma LongSMatches()
    ensures EndsWithExt("b.c\U{017F}v", "csv")
    ensures IsDocument(Reference("file", "b.c\U{017F}v"))
  {
    var name := "b.c\U{017F}v";
    FoldEqPointwise("c\U{017F}v", "csv");
    assert name[2..] == "c\U{017F}v";
    assert EndsWithExt(name, DocumentWords[2]);
    assert !EndsWithExt(name, ImageWords[0]) && !EndsWithExt(name, ImageWords[1]);
  }

  /** Lower-casing keeps the long s. */
  lemma LongSLower()
    ensures ToLower(".c\U{017F}v") == ".c\U{017F}v"
  {
    assert ToLower(".c\U{017F}v")[2] == '\U{017F}';
  }

  /** The unsupported branch inherits `err`: a name ending in ".cſv" after
      an unreadable ".txt" is skipped, while on its own it appends the
      "unsupported format" text. */
  lemma UnsupportedInheritsError(readers: Readers, st: Enriched)
    requires readers.readText("a.txt") == None
    requires !st.err
    ensures var bad := Reference("file", "b.c\U{017F}v");
      && EnrichAll([Reference("file", "a.txt"), bad], readers, st).prompt == st.prompt
      && EnrichAll([bad], readers, st).prompt == st.prompt + Segment(".c\U{017F}v", UnsupportedBytes)
  {
    var txt := Reference("file", "a.txt");
    var bad := Reference("file", "b.c\U{017F}v");
    LastStep([txt, bad], readers, st);
    assert [txt, bad][..1] == [txt];
    LastStep([txt], readers, st);
    assert [txt][..0] == [];
    LastStep([bad], readers, st);
    assert [bad][..0] == [];
    TxtUnreadable(readers, st);
    LongSStep(readers, st.(err := true));
    LongSStep(readers, st);
  }

  /** An unreadable "a.txt" sets `err` and adds nothing. */
  lemma TxtUnreadable(readers: Readers, st: Enriched)
    requires readers.readText("a.txt") == None
    ensures Step(st, Reference("file", "a.txt"), readers) == st.(err := true)
  {
    TxtIsText();
  }

  /** A "b.cſv" reference adds the unsupported text unless `err` is set. */
  lemma LongSStep(readers: Readers, st: Enriched)
    ensures Step(st, Reference("file", "b.c\U{017F}v"), readers).prompt
         == if st.err then st.prompt else st.prompt + Segment(".c\U{017F}v", UnsupportedBytes)
  {
    LongSIsUnsupported();
  }
}
