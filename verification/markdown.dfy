/** The Markdown export of the rpc service
    (rpc/internal/logic/convertmarkdownlogic.go): a line-driven parser into
    a small block/inline tree, and the WordprocessingML body built from it
    (ECMA-376 Part 1, section 17.3.2, run properties; sizes in half-points).
    The parser resembles a subset of CommonMark (ATX headings, fenced code,
    code spans and emphasis) but follows its own grammar, written here with
    the regular expressions turned into rune predicates. */
module Markdown {
  import opened Wrappers
  import opened Text
  import Utf8

  /* ---------------- the export type ---------------- */

  datatype ExportType = Pdf | Docx

  function TypeName(t: ExportType): string {
    match t
    case Pdf => "pdf"
    case Docx => "docx"
  }

  /** The request's type, trimmed and lower-cased, must name a format. */
  function ParseExportType(t: string): (r: Option<ExportType>)
    ensures r.Some? ==> ToLower(TrimSpace(t)) == TypeName(r.value)
    ensures r.None? ==> ToLower(TrimSpace(t)) != "pdf" && ToLower(TrimSpace(t)) != "docx"
  {
    var n := ToLower(TrimSpace(t));
    if n == "pdf" then Some(Pdf) else if n == "docx" then Some(Docx) else None
  }

  /** Every format is accepted under its own name, whatever spaces surround
      it and in whatever case. */
  lemma {:induction false} ExportTypeRoundTrip(t: ExportType, pad: string, upper: bool)
    requires AllSpace(pad)
    ensures ParseExportType(pad + (if upper then Upper(TypeName(t)) else TypeName(t)) + pad) == Some(t)
  {
    var low := TypeName(t);
    var name := if upper then Upper(low) else low;
    assert ToLower(name) == low by {
      if upper {
        LowerUpper(low);
      } else {
        LowerLower(low);
      }
    }
    assert !IsSpace(name[0]) && !IsSpace(name[|name| - 1]);
    TrimPadded(pad, name);
    assert ToLower(TrimSpace(pad + name + pad)) == low;
  }

  function UpperAscii(c: char): char {
    if 'a' <= c <= 'z' then (c as int - 32) as char else c
  }

  /** The upper-case spelling of a word. */
  function Upper(s: string): (r: string)
    ensures |r| == |s|
    ensures forall i | 0 <= i < |s| :: r[i] == UpperAscii(s[i])
  {
    if |s| == 0 then "" else [UpperAscii(s[0])] + Upper(s[1..])
  }

  lemma LowerUpper(s: string)
    requires s == "pdf" || s == "docx"
    ensures ToLower(Upper(s)) == s
  {
    var r := ToLower(Upper(s));
    forall i | 0 <= i < |s|
      ensures r[i] == s[i]
    {
      assert 'a' <= s[i] <= 'z';
      var u := UpperAscii(s[i]);
      assert u as int == s[i] as int - 32;
      assert 'A' <= u <= 'Z';
    }
  }

  lemma LowerLower(s: string)
    requires s == "pdf" || s == "docx"
    ensures ToLower(s) == s
  {
    forall i | 0 <= i < |s|
      ensures ToLower(s)[i] == s[i]
    {
      assert 'a' <= s[i] <= 'z';
    }
  }

  lemma TrimPadded(pad: string, name: string)
    requires AllSpace(pad)
    requires |name| > 0 && !IsSpace(name[0]) && !IsSpace(name[|name| - 1])
    ensures TrimSpace(pad + name + pad) == name
  {
    TrimLeftPadded(pad, name + pad);
    assert pad + name + pad == pad + (name + pad);
    TrimRightPadded(name, pad);
  }

  lemma {:induction false} TrimLeftPadded(pad: string, s: string)
    requires AllSpace(pad)
    requires |s| > 0 && !IsSpace(s[0])
    ensures TrimLeftSpace(pad + s) == s
  {
    if |pad| > 0 {
      assert (pad + s)[1..] == pad[1..] + s;
      TrimLeftPadded(pad[1..], s);
    } else {
      assert pad + s == s;
    }
  }

  lemma {:induction false} TrimRightPadded(s: string, pad: string)
    requires AllSpace(pad)
    requires |s| > 0 && !IsSpace(s[|s| - 1])
    ensures TrimRightSpace(s + pad) == s
  {
    if |pad| > 0 {
      assert (s + pad)[..|s + pad| - 1] == s + pad[..|pad| - 1];
      TrimRightPadded(s, pad[..|pad| - 1]);
    } else {
      assert s + pad == s;
    }
  }

  /* ---------------- rune classes of the regular expressions ---------------- */

  /** `\s` of Go's regular expressions: ASCII white space only. */
  predicate ReSpace(c: char) {
    c == '\t' || c == '\n' || c == '\U{000C}' || c == '\r' || c == ' '
  }

  predicate IsHash(c: char) {
    c == '#'
  }

  predicate IsBullet(c: char) {
    c == '-' || c == '*' || c == '+'
  }

  /** The length of the longest prefix of `s` whose runes satisfy `p`. */
  function Span(s: string, p: char -> bool): (n: nat)
    ensures n <= |s|
    ensures forall i | 0 <= i < n :: p(s[i])
    ensures n < |s| ==> !p(s[n])
  {
    if |s| > 0 && p(s[0]) then 1 + Span(s[1..], p) else 0
  }

  /** The length of the longest prefix of `s` without `d`. */
  function Without(s: string, d: char): (n: nat)
    ensures n <= |s|
    ensures d !in s[..n]
    ensures n < |s| ==> s[n] == d
  {
    if |s| > 0 && s[0] != d then 1 + Without(s[1..], d) else 0
  }

  /* ---------------- inline runs ---------------- */

  /** A run of text with its emphasis. */
  datatype Inline = Inline(text: string, bold: bool, italic: bool, code: bool)

  function PlainRun(t: string): Inline {
    Inline(t, false, false, false)
  }

  datatype Style = Strong | Emphasis | CodeSpan

  function Delimiter(st: Style): string {
    match st
    case Strong => "**"
    case Emphasis => "*"
    case CodeSpan => "`"
  }

  function Styled(st: Style, t: string): Inline {
    Inline(t, st == Strong, st == Emphasis, st == CodeSpan)
  }

  /** The text between an opening delimiter at `p` and a closing one
      ending at `e` holds no rune of the delimiter. */
  predicate IsToken(s: string, p: nat, st: Style, e: nat) {
    var w := |Delimiter(st)|;
    && p + 2 * w < e <= |s|
    && s[p..p + w] == Delimiter(st)
    && s[e - w..e] == Delimiter(st)
    && Delimiter(st)[0] !in s[p + w..e - w]
  }

  /** The token of `(\*\*[^*]+\*\*|\*[^*]+\*|`[^`]+`)` starting at `p`: the
      alternatives are tried in order, so a bold token wins over an italic
      one at the same place. A body is a non-empty run of runes other than
      the delimiter's, and must be followed by the closing delimiter. */
  function TokenAt(s: string, p: nat): (r: Option<(Style, nat)>)
    requires p <= |s|
    ensures r.Some? ==> p + 2 * |Delimiter(r.value.0)| < r.value.1 <= |s|
  {
    var bold := if p + 2 <= |s| then Without(s[p + 2..], '*') else 0;
    var star := if p + 1 <= |s| then Without(s[p + 1..], '*') else 0;
    var tick := if p + 1 <= |s| then Without(s[p + 1..], '`') else 0;
    if p + 2 <= |s| && s[p] == '*' && s[p + 1] == '*' && bold >= 1 && p + bold + 4 <= |s| && s[p + bold + 3] == '*' then
      Some((Strong, p + bold + 4))
    else if p < |s| && s[p] == '*' && star >= 1 && p + star + 2 <= |s| then
      Some((Emphasis, p + star + 2))
    else if p < |s| && s[p] == '`' && tick >= 1 && p + tick + 2 <= |s| then
      Some((CodeSpan, p + tick + 2))
    else None
  }

  lemma TokenShape(s: string, p: nat)
    requires p <= |s| && TokenAt(s, p).Some?
    ensures IsToken(s, p, TokenAt(s, p).value.0, TokenAt(s, p).value.1)
  {
    var (st, e) := TokenAt(s, p).value;
    match st
    case Strong => StrongShape(s, p, e);
    case Emphasis => SingleShape(s, p, Emphasis, e);
    case CodeSpan => SingleShape(s, p, CodeSpan, e);
  }

  /** The body of a run starting at `q` that stops at `d`. */
  lemma BodyBefore(s: string, q: nat, d: char)
    requires q <= |s| && q + Without(s[q..], d) < |s|
    ensures var n := Without(s[q..], d);
      d !in s[q..q + n] && s[q + n] == d
  {
    var n := Without(s[q..], d);
    assert s[q..][..n] == s[q..q + n];
    assert s[q + n] == s[q..][n];
  }

  lemma StrongShape(s: string, p: nat, e: nat)
    requires p <= |s| && TokenAt(s, p) == Some((Strong, e))
    ensures IsToken(s, p, Strong, e)
  {
    BodyBefore(s, p + 2, '*');
    assert s[e - 2..e] == "**";
    assert s[p..p + 2] == "**";
  }

  lemma SingleShape(s: string, p: nat, st: Style, e: nat)
    requires st != Strong
    requires p <= |s| && TokenAt(s, p) == Some((st, e))
    ensures IsToken(s, p, st, e)
  {
    var d := Delimiter(st)[0];
    BodyBefore(s, p + 1, d);
    assert s[e - 1..e] == [d];
    assert s[p..p + 1] == [d];
  }

  /** The styled run of the token at `p` ending at `e`: its body. */
  function TokenRun(s: string, p: nat, st: Style, e: nat): Inline
    requires p + 2 * |Delimiter(st)| < e <= |s|
  {
    Styled(st, s[p + |Delimiter(st)|..e - |Delimiter(st)|])
  }

  /** A plain run of `t`, or none when `t` is empty. */
  function PlainRuns(t: string): seq<Inline> {
    if t == "" then [] else [PlainRun(t)]
  }

  /** The runs of `s` from `p` on, while `s[start..p]` waits to be pushed
      as plain text: the leftmost token is taken first, then the scan
      resumes after it. */
  function Scan(s: string, start: nat, p: nat): seq<Inline>
    requires start <= p <= |s|
    decreases |s| - p
  {
    if p == |s| then PlainRuns(s[start..])
    else
      var t := TokenAt(s, p);
      if t.None? then Scan(s, start, p + 1)
      else PlainRuns(s[start..p]) + [TokenRun(s, p, t.value.0, t.value.1)] + Scan(s, t.value.1, t.value.1)
  }

  /** `strings.ReplaceAll(t, "\t", "    ")`. */
  function ExpandTabs(t: string): (r: string)
    ensures |r| >= |t|
    ensures forall c | c in r :: c == ' ' || (c in t && c != '\t')
  {
    if |t| == 0 then "" else Widen(t[0]) + ExpandTabs(t[1..])
  }

  function Widen(c: char): (r: string)
    ensures |r| >= 1
  {
    if c == '\t' then "    " else [c]
  }

  function ExpandRuns(xs: seq<Inline>): (r: seq<Inline>)
    ensures |r| == |xs|
    ensures forall i | 0 <= i < |xs| :: r[i] == xs[i].(text := ExpandTabs(xs[i].text))
  {
    seq(|xs|, i requires 0 <= i < |xs| => xs[i].(text := ExpandTabs(xs[i].text)))
  }

  /** `parseInlines`. */
  function ParseInlines(s: string): seq<Inline> {
    if s == "" then [] else ExpandRuns(Scan(s, 0, 0))
  }

  /** The Markdown a run came from: its text between its delimiters. */
  function Source(x: Inline): string {
    if x.bold then "**" + x.text + "**"
    else if x.italic then "*" + x.text + "*"
    else if x.code then "`" + x.text + "`"
    else x.text
  }

  function Unparse(xs: seq<Inline>): string {
    if |xs| == 0 then "" else Source(xs[0]) + Unparse(xs[1..])
  }

  lemma {:induction false} UnparseAppend(a: seq<Inline>, b: seq<Inline>)
    ensures Unparse(a + b) == Unparse(a) + Unparse(b)
  {
    if |a| == 0 {
      assert a + b == b;
    } else {
      UnparseAppend(a[1..], b);
      assert a + b == [a[0]] + (a[1..] + b);
      UnparseCons(a[0], a[1..] + b);
      ConcatAssoc(Source(a[0]), Unparse(a[1..]), Unparse(b));
    }
  }

  lemma UnparseCons(x: Inline, rest: seq<Inline>)
    ensures Unparse([x] + rest) == Source(x) + Unparse(rest)
  {
    assert ([x] + rest)[1..] == rest;
  }

  /** A well-formed run: non-empty text, at most one style, and no
      delimiter of its own style inside. */
  predicate WellFormedRun(x: Inline) {
    && x.text != ""
    && (x.bold ==> !x.italic && !x.code && '*' !in x.text)
    && (x.italic ==> !x.code && '*' !in x.text)
    && (x.code ==> '`' !in x.text)
  }

  predicate AllWellFormed(xs: seq<Inline>) {
    forall i | 0 <= i < |xs| :: WellFormedRun(xs[i])
  }

  lemma StyledSource(s: string, p: nat, st: Style, e: nat)
    requires IsToken(s, p, st, e)
    ensures Source(TokenRun(s, p, st, e)) == s[p..e]
    ensures WellFormedRun(TokenRun(s, p, st, e))
  {
    var d := Delimiter(st);
    var w := |d|;
    var mid := s[p + w..e - w];
    assert TokenRun(s, p, st, e) == Styled(st, mid);
    assert s[p..e] == d + mid + d by {
      assert s[p..e] == s[p..p + w] + mid + s[e - w..e];
    }
    assert mid != "" && d[0] !in mid;
    SourceStyled(st, mid);
  }

  /** A styled run's source is its text between two delimiters; it is well
      formed when its text is non-empty and free of the delimiter. */
  lemma SourceStyled(st: Style, t: string)
    ensures Source(Styled(st, t)) == Delimiter(st) + t + Delimiter(st)
    ensures t != "" && Delimiter(st)[0] !in t ==> WellFormedRun(Styled(st, t))
  {
  }

  /** What the scan returns reads back, delimiters restored, as the text it
      scanned. */
  lemma {:induction false} ScanSource(s: string, start: nat, p: nat)
    requires start <= p <= |s|
    ensures Unparse(Scan(s, start, p)) == s[start..]
    decreases |s| - p
  {
    if p == |s| {
      assert Scan(s, start, p) == PlainRuns(s[start..]);
      UnparsePlain(s[start..]);
    } else if TokenAt(s, p).None? {
      assert Scan(s, start, p) == Scan(s, start, p + 1);
      ScanSource(s, start, p + 1);
    } else {
      var (st, e) := TokenAt(s, p).value;
      ScanSource(s, e, e);
      TokenText(s, p, st, e);
      TokenSource(s, start, p, e, TokenRun(s, p, st, e), Scan(s, start, p), Scan(s, e, e));
    }
  }

  /** A token's run, delimiters restored, is the token's text. */
  lemma TokenText(s: string, p: nat, st: Style, e: nat)
    requires p <= |s| && TokenAt(s, p) == Some((st, e))
    ensures Source(TokenRun(s, p, st, e)) == s[p..e]
  {
    TokenShape(s, p);
    StyledSource(s, p, st, e);
  }

  lemma TokenSource(s: string, start: nat, p: nat, e: nat, tok: Inline, here: seq<Inline>, rest: seq<Inline>)
    requires start <= p <= e <= |s|
    requires Source(tok) == s[p..e]
    requires here == PlainRuns(s[start..p]) + [tok] + rest
    requires Unparse(rest) == s[e..]
    ensures Unparse(here) == s[start..]
  {
    TokenStep(s[start..p], s[p..e], s[e..], tok, rest, here);
    Slices(s, start, p, e);
  }

  lemma UnparsePlain(t: string)
    ensures Unparse(PlainRuns(t)) == t
  {
    if t != "" {
      assert Unparse([PlainRun(t)]) == Source(PlainRun(t)) + Unparse([]);
    }
  }

  lemma Slices(s: string, i: nat, j: nat, k: nat)
    requires i <= j <= k <= |s|
    ensures s[i..] == s[i..j] + s[j..k] + s[k..]
  {
  }

  lemma TokenStep(a: string, b: string, c: string, tok: Inline, rest: seq<Inline>, here: seq<Inline>)
    requires Source(tok) == b && Unparse(rest) == c
    requires here == PlainRuns(a) + [tok] + rest
    ensures Unparse(here) == a + b + c
  {
    var pre := PlainRuns(a);
    assert Unparse(pre) == a by { UnparsePlain(a); }
    assert Unparse([tok]) == b by { assert Unparse([tok]) == Source(tok) + Unparse([]); }
    assert Unparse(pre + [tok]) == a + b by { UnparseAppend(pre, [tok]); }
    UnparseAppend(pre + [tok], rest);
  }

  /** Every run the scan returns is well formed. */
  lemma {:induction false} ScanWellFormed(s: string, start: nat, p: nat)
    requires start <= p <= |s|
    ensures AllWellFormed(Scan(s, start, p))
    decreases |s| - p
  {
    if p == |s| {
    } else {
      match TokenAt(s, p)
      case None => ScanWellFormed(s, start, p + 1);
      case Some((st, e)) =>
        ScanWellFormed(s, e, e);
        TokenShape(s, p);
        StyledSource(s, p, st, e);
        var pre := PlainRuns(s[start..p]) + [TokenRun(s, p, st, e)];
        assert AllWellFormed(pre);
        AppendWellFormed(pre, Scan(s, e, e));
    }
  }

  lemma AppendWellFormed(a: seq<Inline>, b: seq<Inline>)
    requires AllWellFormed(a) && AllWellFormed(b)
    ensures AllWellFormed(a + b)
  {
    forall i | 0 <= i < |a + b|
      ensures WellFormedRun((a + b)[i])
    {
      if i >= |a| {
        assert (a + b)[i] == b[i - |a|];
      }
    }
  }

  lemma {:induction false} ExpandTabsAppend(a: string, b: string)
    ensures ExpandTabs(a + b) == ExpandTabs(a) + ExpandTabs(b)
  {
    if |a| == 0 {
      assert a + b == b;
    } else {
      ExpandTabsAppend(a[1..], b);
      var ab := a + b;
      assert ab[0] == a[0];
      assert ab[1..] == a[1..] + b;
      assert ExpandTabs(ab) == Widen(a[0]) + ExpandTabs(a[1..] + b);
      ConcatAssoc(Widen(a[0]), ExpandTabs(a[1..]), ExpandTabs(b));
    }
  }

  lemma ExpandSource(x: Inline)
    ensures Source(x.(text := ExpandTabs(x.text))) == ExpandTabs(Source(x))
  {
    var t := x.text;
    ExpandDelimiters();
    if x.bold {
      ExpandAround("**", t);
    } else if x.italic {
      ExpandAround("*", t);
    } else if x.code {
      ExpandAround("`", t);
    }
  }

  /** Text between two copies of a tab-free delimiter widens on its own. */
  lemma ExpandAround(d: string, t: string)
    requires ExpandTabs(d) == d
    ensures ExpandTabs(d + t + d) == d + ExpandTabs(t) + d
  {
    ExpandTabsAppend(d + t, d);
    ExpandTabsAppend(d, t);
  }

  lemma ExpandDelimiters()
    ensures ExpandTabs("**") == "**" && ExpandTabs("*") == "*" && ExpandTabs("`") == "`"
  {
    assert "**"[1..] == "*";
  }

  lemma {:induction false} UnparseExpand(xs: seq<Inline>)
    ensures Unparse(ExpandRuns(xs)) == ExpandTabs(Unparse(xs))
  {
    if |xs| > 0 {
      UnparseExpand(xs[1..]);
      assert ExpandRuns(xs)[1..] == ExpandRuns(xs[1..]);
      ExpandSource(xs[0]);
      ExpandTabsAppend(Source(xs[0]), Unparse(xs[1..]));
    }
  }

  /** `parseInlines` loses nothing but tabs: putting the delimiters back
      around the styled runs and concatenating all runs gives the input
      with each tab widened to four spaces. */
  lemma ParseInlinesSource(s: string)
    ensures Unparse(ParseInlines(s)) == ExpandTabs(s)
  {
    if s != "" {
      ScanSource(s, 0, 0);
      UnparseExpand(Scan(s, 0, 0));
    }
  }

  /** Every run is non-empty, carries at most one style and holds no
      delimiter of its own style; "" gives no runs. */
  lemma ParseInlinesWellFormed(s: string)
    ensures s == "" ==> ParseInlines(s) == []
    ensures AllWellFormed(ParseInlines(s))
  {
    if s != "" {
      ScanWellFormed(s, 0, 0);
      var xs := Scan(s, 0, 0);
      forall i | 0 <= i < |xs|
        ensures WellFormedRun(ExpandRuns(xs)[i])
      {
        assert WellFormedRun(xs[i]);
        assert ExpandRuns(xs)[i].text == ExpandTabs(xs[i].text);
      }
    }
  }

  /** Text with no `*` and no backquote is one plain run. */
  lemma {:induction false} ScanPlain(s: string, start: nat, p: nat)
    requires start <= p <= |s|
    requires '*' !in s && '`' !in s
    ensures Scan(s, start, p) == PlainRuns(s[start..])
    decreases |s| - p
  {
    if p < |s| {
      assert s[p] != '*' && s[p] != '`';
      ScanPlain(s, start, p + 1);
    }
  }

  lemma PlainText(s: string)
    requires s != "" && '*' !in s && '`' !in s
    ensures ParseInlines(s) == [PlainRun(ExpandTabs(s))]
  {
    ScanPlain(s, 0, 0);
    assert s[0..] == s;
  }

  /* ---------------- splitAfter ---------------- */

  /** `splitAfter`: what follows the first occurrence of `sep`, or all of
      `s` when there is none. */
  function SplitAfter(s: string, sep: string): (r: string)
    ensures IndexOf(s, sep).None? ==> r == s
    ensures IndexOf(s, sep).Some? ==> s == s[..IndexOf(s, sep).value] + sep + r
  {
    match IndexOf(s, sep)
    case None => s
    case Some(i) =>
      assert s == s[..i] + s[i..i + |sep|] + s[i + |sep|..];
      s[i + |sep|..]
  }

  /* ---------------- blocks ---------------- */

  datatype Block =
    | Paragraph(inlines: seq<Inline>)
    | Heading(level: nat, inlines: seq<Inline>)
    | ListBlock(ordered: bool, items: seq<seq<Inline>>)
    | CodeBlock(lines: seq<string>)

  /** "^```". */
  /** What follows the first occurrence of `sep`, found at `i`. */
  lemma SplitAfterAt(s: string, sep: string, i: nat)
    requires IndexOf(s, sep) == Some(i)
    ensures i + |sep| <= |s| && SplitAfter(s, sep) == s[i + |sep|..]
  {
  }

  predicate IsFence(line: string) {
    HasPrefix(line, "```")
  }

  predicate AllReSpace(s: string) {
    forall i | 0 <= i < |s| :: ReSpace(s[i])
  }

  /** "^(#{1,6})\s+(.*)$": the number of leading hashes, and the text after
      the spaces that must follow them. */
  function HeadingMatch(line: string): (r: Option<(nat, string)>)
    ensures r.Some? ==>
      && 1 <= r.value.0 <= 6 && r.value.0 < |line|
      && (forall i | 0 <= i < r.value.0 :: line[i] == '#')
      && ReSpace(line[r.value.0])
      && |r.value.1| < |line| - r.value.0
      && line[|line| - |r.value.1|..] == r.value.1
      && AllReSpace(line[r.value.0..|line| - |r.value.1|])
      && (|r.value.1| > 0 ==> !ReSpace(r.value.1[0]))
  {
    var h := Span(line, IsHash);
    if 1 <= h <= 6 && h < |line| && ReSpace(line[h]) then
      var sp := Span(line[h..], ReSpace);
      assert line[h..h + sp] == line[h..][..sp];
      Some((h, line[h + sp..]))
    else None
  }

  function Hashes(k: nat): (r: string)
    ensures |r| == k && forall i | 0 <= i < k :: r[i] == '#'
  {
    seq(k, i => '#')
  }

  /** One to six hashes, spaces, then text not starting with a space, form
      a heading of that level whose text is that text. */
  lemma HeadingForm(k: nat, sp: string, text: string)
    requires 1 <= k <= 6
    requires |sp| >= 1 && AllReSpace(sp)
    requires |text| > 0 ==> !ReSpace(text[0])
    ensures HeadingMatch(Hashes(k) + sp + text) == Some((k, text))
  {
    var line := Hashes(k) + sp + text;
    assert line[k] == sp[0];
    assert Span(line, IsHash) == k by {
      assert !IsHash(line[k]);
    }
    var rest := line[k..];
    assert rest == sp + text;
    var n := Span(rest, ReSpace);
    assert forall i | 0 <= i < |sp| :: rest[i] == sp[i];
    assert |sp| < |rest| ==> rest[|sp|] == text[0];
    assert n == |sp|;
    assert line[k + n..] == text;
  }

  /** Seven or more hashes never form a heading, nor does a line not
      starting with one. */
  lemma NotHeading(line: string)
    requires HasPrefix(line, "#######") || |line| == 0 || line[0] != '#'
    ensures HeadingMatch(line).None?
  {
    if HasPrefix(line, "#######") {
      var h := Span(line, IsHash);
      assert forall i | 0 <= i < 7 :: IsHash(line[i]) by {
        forall i | 0 <= i < 7
          ensures IsHash(line[i])
        {
          assert line[i] == line[..7][i];
        }
      }
      assert h >= 7;
    }
  }

  /** "^\s*[-*+]\s+(.*)$", and the text that replacing the line by `$1`
      leaves. */
  function BulletMatch(line: string): Option<string> {
    var w := Span(line, ReSpace);
    if w + 1 < |line| && IsBullet(line[w]) && ReSpace(line[w + 1]) then
      var rest := line[w + 1..];
      Some(rest[Span(rest, ReSpace)..])
    else None
  }

  /** "^\s*\d+\.\s+(.*)$". */
  predicate OrderedMatch(line: string) {
    var w := Span(line, ReSpace);
    var d := Span(line[w..], IsDigit);
    d >= 1 && w + d + 1 < |line| && line[w + d] == '.' && ReSpace(line[w + d + 1])
  }

  /** A line of a list of the given kind. */
  predicate IsItem(line: string, ordered: bool) {
    if ordered then OrderedMatch(line) else BulletMatch(line).Some?
  }

  predicate IsBlank(line: string) {
    TrimSpace(line) == ""
  }

  /** The text of an item: for an ordered item, whatever follows the first
      ". " of the line, which need not be the marker's. */
  function ItemText(line: string, ordered: bool): string
    requires IsItem(line, ordered)
  {
    if ordered then TrimSpace(SplitAfter(line, ". ")) else TrimSpace(BulletMatch(line).value)
  }

  /** A line is at most one of: a fence, a heading, a bullet item, a
      numbered item; and a blank line is none of them. */
  lemma LineKinds(line: string)
    ensures IsFence(line) ==> HeadingMatch(line).None? && !IsItem(line, false) && !IsItem(line, true)
    ensures HeadingMatch(line).Some? ==> !IsItem(line, false) && !IsItem(line, true)
    ensures !(IsItem(line, false) && IsItem(line, true))
    ensures IsBlank(line) ==> !IsFence(line) && HeadingMatch(line).None? && !IsItem(line, false) && !IsItem(line, true)
  {
    if IsFence(line) || HeadingMatch(line).Some? || IsItem(line, false) {
      FirstNonSpace(line);
    }
    if IsBlank(line) {
      BlankKinds(line);
    }
  }

  /** What follows a line's leading spaces: a backquote or a hash at the
      very start, a bullet or a digit after the spaces. */
  lemma FirstNonSpace(line: string)
    ensures var w := Span(line, ReSpace);
      && (IsFence(line) ==> w == 0 && line[0] == '`')
      && (HeadingMatch(line).Some? ==> w == 0 && line[0] == '#')
      && (IsItem(line, false) ==> w < |line| && IsBullet(line[w]))
      && (IsItem(line, true) ==> w < |line| && IsDigit(line[w]))
  {
    FenceStart(line);
    HeadingStart(line);
    BulletStart(line);
    OrderedStart(line);
  }

  lemma FenceStart(line: string)
    ensures IsFence(line) ==> Span(line, ReSpace) == 0 && line[0] == '`'
  {
    if IsFence(line) {
      assert line[0] == "```"[0];
    }
  }

  lemma HeadingStart(line: string)
    ensures HeadingMatch(line).Some? ==> Span(line, ReSpace) == 0 && line[0] == '#'
  {
  }

  lemma BulletStart(line: string)
    ensures var w := Span(line, ReSpace);
      IsItem(line, false) ==> w < |line| && IsBullet(line[w])
  {
  }

  lemma OrderedStart(line: string)
    ensures var w := Span(line, ReSpace);
      IsItem(line, true) ==> w < |line| && IsDigit(line[w])
  {
    var w := Span(line, ReSpace);
    if IsItem(line, true) {
      assert line[w..][0] == line[w];
    }
  }

  lemma BlankKinds(line: string)
    requires IsBlank(line)
    ensures !IsFence(line) && HeadingMatch(line).None? && !IsItem(line, false) && !IsItem(line, true)
  {
    TrimSpaceEmptyIff(line);
    var w := Span(line, ReSpace);
    assert |line| > 0 ==> IsSpace(line[0]);
    assert w < |line| ==> IsSpace(line[w]);
    FenceStart(line);
    HeadingStart(line);
    BulletStart(line);
    OrderedStart(line);
  }

  /** The text is cut at the first ". " of the line, which need not be the
      marker's: after a tab, the start of the item's first sentence is lost. */
  lemma OrderedItemAfterTab()
    ensures IsItem(TabItem, true)
    ensures ItemText(TabItem, true) == "bar"
  {
    TabItemMatches();
    TabItemCut();
    SplitAfterAt(TabItem, ". ", 6);
    TabItemRest();
    TrimBar();
  }

  lemma TabItemRest()
    ensures TabItem[8..] == "bar"
  {
  }

  lemma TrimBar()
    ensures TrimSpace("bar") == "bar"
  {
    assert !IsSpace('b') && !IsSpace('r');
    TrimPadded("", "bar");
    assert "" + "bar" + "" == "bar";
  }

  const TabItem := "1.\tfoo. bar"

  lemma TabItemMatches()
    ensures OrderedMatch(TabItem)
  {
    var line := TabItem;
    assert Span(line, ReSpace) == 0;
    assert line[0..] == line;
    assert Span(line, IsDigit) == 1;
  }

  lemma TabItemCut()
    ensures IndexOf(TabItem, ". ") == Some(6)
  {
    var line := TabItem;
    assert OccursAt(line, ". ", 6);
    forall j: nat | j < 6
      ensures !OccursAt(line, ". ", j)
    {
      assert line[j..j + 2][0] == line[j] && line[j..j + 2][1] == line[j + 1];
      assert line[j + 1] != ' ' || line[j] != '.';
    }
  }

  /** A numbered item "N. text" has the text after its marker. */
  lemma OrderedItemText(ws: string, digits: string, text: string)
    requires AllReSpace(ws)
    requires |digits| >= 1 && forall i | 0 <= i < |digits| :: IsDigit(digits[i])
    ensures IsItem(ws + digits + ". " + text, true)
    ensures ItemText(ws + digits + ". " + text, true) == TrimSpace(text)
  {
    var line := ws + digits + ". " + text;
    var m := |ws| + |digits|;
    assert line[m] == '.' && line[m + 1] == ' ';
    assert Span(line, ReSpace) == |ws| by {
      assert !ReSpace(line[|ws|]) by { assert line[|ws|] == digits[0]; }
    }
    var rest := line[|ws|..];
    assert Span(rest, IsDigit) == |digits| by {
      assert rest[|digits|] == '.';
      assert forall i | 0 <= i < |digits| :: rest[i] == digits[i];
    }
    assert OccursAt(line, ". ", m) by {
      assert line[m..m + 2] == ". ";
    }
    forall j: nat | j < m
      ensures !OccursAt(line, ". ", j)
    {
      if j < |ws| {
        assert line[j] == ws[j];
      } else {
        assert line[j] == digits[j - |ws|];
      }
    }
    assert IndexOf(line, ". ") == Some(m);
    assert line[m + 2..] == text;
  }

  /** The first line at or after `i` at which `stop` holds, or the end. */
  function Until(lines: seq<string>, i: nat, stop: string -> bool): (j: nat)
    requires i <= |lines|
    ensures i <= j <= |lines|
    ensures forall k | i <= k < j :: !stop(lines[k])
    ensures j < |lines| ==> stop(lines[j])
    decreases |lines| - i
  {
    if i == |lines| || stop(lines[i]) then i else Until(lines, i + 1, stop)
  }

  /** `Until` is pinned down by its two ensures. */
  lemma UntilIs(lines: seq<string>, i: nat, j: nat, stop: string -> bool)
    requires i <= j <= |lines|
    requires forall k | i <= k < j :: !stop(lines[k])
    requires j == |lines| || stop(lines[j])
    ensures Until(lines, i, stop) == j
  {
    var u := Until(lines, i, stop);
    assert !(u < j) && !(j < u);
  }

  predicate NotBulletItem(line: string) {
    !IsItem(line, false)
  }

  predicate NotOrderedItem(line: string) {
    !IsItem(line, true)
  }

  /** Where a list of the kind stops: the first line that is not an item
      of that kind. */
  function ItemStop(ordered: bool): string -> bool {
    if ordered then NotOrderedItem else NotBulletItem
  }

  lemma ItemStopIs(ordered: bool, line: string)
    ensures ItemStop(ordered)(line) == !IsItem(line, ordered)
  {
  }

  function Items(lines: seq<string>, i: nat, j: nat, ordered: bool): (r: seq<seq<Inline>>)
    requires i <= j <= |lines|
    requires forall k | i <= k < j :: IsItem(lines[k], ordered)
    ensures |r| == j - i
  {
    seq(j - i, k requires 0 <= k < j - i => ParseInlines(ItemText(lines[i + k], ordered)))
  }

  /** The lines of a paragraph, trimmed and joined by single spaces. */
  function ParagraphText(lines: seq<string>, i: nat, j: nat): string
    requires i <= j <= |lines|
  {
    Join(seq(j - i, k requires 0 <= k < j - i => TrimSpace(lines[i + k])), " ")
  }

  /** The block that starts at line `i`, and the line after it; `None` for
      a blank line. The kinds are tried in this order: fence, heading,
      list, paragraph. */
  function BlockAt(lines: seq<string>, i: nat): (r: Option<(Block, nat)>)
    requires i < |lines|
    ensures r.Some? ==> i < r.value.1 <= |lines|
  {
    var line := lines[i];
    if IsFence(line) then Some(FenceAt(lines, i))
    else if HeadingMatch(line).Some? then
      Some((Heading(HeadingMatch(line).value.0, ParseInlines(HeadingMatch(line).value.1)), i + 1))
    else if IsItem(line, false) then Some(ListAt(lines, i, IsItem(line, true)))
    else if IsItem(line, true) then Some(ListAt(lines, i, true))
    else if !IsBlank(line) then Some(ParagraphAt(lines, i))
    else None
  }

  /** A code block: the lines after the fence up to the closing one, which
      is consumed when there is one. */
  function FenceAt(lines: seq<string>, i: nat): (r: (Block, nat))
    requires i < |lines|
    ensures i < r.1 <= |lines|
  {
    var j := Until(lines, i + 1, IsFence);
    (CodeBlock(lines[i + 1..j]), if j < |lines| then j + 1 else j)
  }

  /** A list: the consecutive items of the kind from `i` on. */
  function ListAt(lines: seq<string>, i: nat, ordered: bool): (r: (Block, nat))
    requires i < |lines| && IsItem(lines[i], ordered)
    ensures i < r.1 <= |lines|
  {
    var j := Until(lines, i, ItemStop(ordered));
    (ListBlock(ordered, Items(lines, i, j, ordered)), j)
  }

  /** A paragraph: the lines from `i` up to the next blank one. */
  function ParagraphAt(lines: seq<string>, i: nat): (r: (Block, nat))
    requires i < |lines| && !IsBlank(lines[i])
    ensures i < r.1 <= |lines|
  {
    var j := Until(lines, i, IsBlank);
    (Paragraph(ParseInlines(ParagraphText(lines, i, j))), j)
  }

  /** The blocks of `lines[i..]`. */
  function ParseFrom(lines: seq<string>, i: nat): (r: seq<Block>)
    requires i <= |lines|
    ensures |r| <= |lines| - i
    decreases |lines| - i
  {
    if i == |lines| then []
    else
      match BlockAt(lines, i)
      case None => ParseFrom(lines, i + 1)
      case Some((b, next)) => [b] + ParseFrom(lines, next)
  }

  /** `parseMarkdown`. */
  function ParseMarkdown(md: string): seq<Block> {
    ParseFrom(Split(md, '\n'), 0)
  }

  /** A fence opens a code block holding, verbatim, the lines up to the next
      fence line, which is consumed; an unclosed fence runs to the end. */
  lemma ParseFence(lines: seq<string>, i: nat, j: nat)
    requires i < j <= |lines| && IsFence(lines[i])
    requires forall k | i < k < j :: !IsFence(lines[k])
    requires j == |lines| || IsFence(lines[j])
    ensures ParseFrom(lines, i) == [CodeBlock(lines[i + 1..j])] + ParseFrom(lines, if j < |lines| then j + 1 else j)
  {
    var next := if j < |lines| then j + 1 else j;
    UntilIs(lines, i + 1, j, IsFence);
    FenceBlockAt(lines, i, j);
    ParseFromSome(lines, i, CodeBlock(lines[i + 1..j]), next);
  }

  lemma FenceBlockAt(lines: seq<string>, i: nat, j: nat)
    requires i < j <= |lines| && IsFence(lines[i]) && Until(lines, i + 1, IsFence) == j
    ensures BlockAt(lines, i) == Some((CodeBlock(lines[i + 1..j]), if j < |lines| then j + 1 else j))
  {
  }

  /** A block found at `i` comes first, and parsing resumes after it. */
  lemma ParseFromSome(lines: seq<string>, i: nat, b: Block, next: nat)
    requires i < |lines| && BlockAt(lines, i) == Some((b, next))
    ensures ParseFrom(lines, i) == [b] + ParseFrom(lines, next)
  {
  }

  /** A heading line is a block of its own. */
  lemma ParseHeading(lines: seq<string>, i: nat, level: nat, text: string)
    requires i < |lines| && HeadingMatch(lines[i]) == Some((level, text))
    ensures ParseFrom(lines, i) == [Heading(level, ParseInlines(text))] + ParseFrom(lines, i + 1)
  {
    LineKinds(lines[i]);
    HeadingBlockAt(lines, i, level, text);
    ParseFromSome(lines, i, Heading(level, ParseInlines(text)), i + 1);
  }

  lemma HeadingBlockAt(lines: seq<string>, i: nat, level: nat, text: string)
    requires i < |lines| && !IsFence(lines[i]) && HeadingMatch(lines[i]) == Some((level, text))
    ensures BlockAt(lines, i) == Some((Heading(level, ParseInlines(text)), i + 1))
  {
  }

  /** A list groups the consecutive items of the kind of its first line
      and ends at the first line that is not one. */
  lemma ParseList(lines: seq<string>, i: nat, j: nat, ordered: bool)
    requires i < j <= |lines|
    requires forall k | i <= k < j :: IsItem(lines[k], ordered)
    requires j == |lines| || !IsItem(lines[j], ordered)
    ensures ParseFrom(lines, i) == [ListBlock(ordered, Items(lines, i, j, ordered))] + ParseFrom(lines, j)
  {
    LineKinds(lines[i]);
    assert IsItem(lines[i], ordered);
    forall k | i <= k <= j && k < |lines|
      ensures ItemStop(ordered)(lines[k]) == !IsItem(lines[k], ordered)
    {
      ItemStopIs(ordered, lines[k]);
    }
    UntilIs(lines, i, j, ItemStop(ordered));
    ListBlockAt(lines, i, j, ordered);
    ParseFromSome(lines, i, ListBlock(ordered, Items(lines, i, j, ordered)), j);
  }

  lemma ListBlockAt(lines: seq<string>, i: nat, j: nat, ordered: bool)
    requires i < j <= |lines|
    requires !IsFence(lines[i]) && HeadingMatch(lines[i]).None?
    requires IsItem(lines[i], ordered) && !(IsItem(lines[i], false) && IsItem(lines[i], true))
    requires Until(lines, i, ItemStop(ordered)) == j
    ensures BlockAt(lines, i) == Some((ListBlock(ordered, Items(lines, i, j, ordered)), j))
  {
  }

  /** A paragraph starts at a non-blank line that opens nothing else and
      absorbs every following non-blank line, whatever it would open on its
      own. */
  lemma ParseParagraph(lines: seq<string>, i: nat, j: nat)
    requires i < j <= |lines|
    requires !IsFence(lines[i]) && HeadingMatch(lines[i]).None? && !IsItem(lines[i], false) && !IsItem(lines[i], true)
    requires forall k | i <= k < j :: !IsBlank(lines[k])
    requires j == |lines| || IsBlank(lines[j])
    ensures ParseFrom(lines, i) == [Paragraph(ParseInlines(ParagraphText(lines, i, j)))] + ParseFrom(lines, j)
  {
    UntilIs(lines, i, j, IsBlank);
    ParagraphBlockAt(lines, i, j);
    ParseFromSome(lines, i, Paragraph(ParseInlines(ParagraphText(lines, i, j))), j);
  }

  lemma ParagraphBlockAt(lines: seq<string>, i: nat, j: nat)
    requires i < j <= |lines|
    requires !IsFence(lines[i]) && HeadingMatch(lines[i]).None? && !IsItem(lines[i], false) && !IsItem(lines[i], true)
    requires !IsBlank(lines[i]) && Until(lines, i, IsBlank) == j
    ensures BlockAt(lines, i) == Some((Paragraph(ParseInlines(ParagraphText(lines, i, j))), j))
  {
  }

  /** Blank lines produce nothing. */
  lemma ParseBlank(lines: seq<string>, i: nat)
    requires i < |lines| && IsBlank(lines[i])
    ensures ParseFrom(lines, i) == ParseFrom(lines, i + 1)
  {
    LineKinds(lines[i]);
    assert BlockAt(lines, i).None?;
  }

  /* ---------------- mis-decoded text ---------------- */

  /** `latin1BytesFromRunes`: one byte per rune, the rune's value, unless
      some rune is above 0xFF. */
  function Latin1Bytes(s: string): (r: Option<seq<Utf8.byte>>)
    ensures r.None? <==> exists i | 0 <= i < |s| :: s[i] as int > 0xFF
    ensures r.Some? ==> |r.value| == |s| && forall i | 0 <= i < |s| :: r.value[i] == s[i] as int
  {
    if |s| == 0 then Some([])
    else if s[0] as int > 0xFF then None
    else
      match Latin1Bytes(s[1..])
      case None => None
      case Some(rest) => Some([s[0] as int as Utf8.byte] + rest)
  }

  /** Bytes read one rune per byte. */
  function Latin1Runes(bs: seq<Utf8.byte>): (s: string)
    ensures |s| == |bs| && forall i | 0 <= i < |bs| :: s[i] as int == bs[i]
  {
    seq(|bs|, i requires 0 <= i < |bs| => bs[i] as char)
  }

  lemma Latin1RoundTrip(bs: seq<Utf8.byte>)
    ensures Latin1Bytes(Latin1Runes(bs)) == Some(bs)
  {
    var s := Latin1Runes(bs);
    assert forall i | 0 <= i < |s| :: !(s[i] as int > 0xFF);
    assert Latin1Bytes(s).value == bs;
  }

  /** GB18030 decoding of bytes, or `None` on an error; the decoder's tables
      are not part of this model. */
  type Gb18030 = seq<Utf8.byte> -> Option<seq<Utf8.byte>>

  /** `RepairChinese`: text whose runes all fit in a byte is taken for
      UTF-8 (or else GB18030) bytes that were read one rune per byte, and
      decoded again when that gives valid UTF-8; anything else is kept. */
  function RepairChinese(s: string, gb: Gb18030): string {
    if s == "" then s
    else
      match Latin1Bytes(s)
      case None => s
      case Some(b) =>
        if Utf8.Decode(b).Some? then Utf8.Decode(b).value
        else
          match gb(b)
          case Some(out) => if Utf8.Decode(out).Some? then Utf8.Decode(out).value else s
          case None => s
  }

  /** Text with a rune above 0xFF, such as correctly decoded Chinese, is
      kept as it is. */
  lemma RepairKeepsWide(s: string, gb: Gb18030, i: nat)
    requires i < |s| && s[i] as int > 0xFF
    ensures RepairChinese(s, gb) == s
  {
  }

  /** ASCII text is kept as it is. */
  lemma RepairKeepsAscii(s: string, gb: Gb18030)
    requires forall i | 0 <= i < |s| :: s[i] as int < 0x80
    ensures RepairChinese(s, gb) == s
  {
    if s != "" {
      Utf8.EncodeAscii(s);
      assert forall i | 0 <= i < |s| :: !(s[i] as int > 0xFF);
      assert Latin1Bytes(s).value == Utf8.Encode(s);
      Utf8.DecodeEncode(s);
    }
  }

  /** The repair undoes the mistake it is for: the UTF-8 bytes of a text
      read one rune per byte come back as that text. */
  lemma RepairUndoesMisreading(t: string, gb: Gb18030)
    requires t != ""
    ensures RepairChinese(Latin1Runes(Utf8.Encode(t)), gb) == t
  {
    var bs := Utf8.Encode(t);
    assert bs == Utf8.EncodeRune(t[0]) + Utf8.Encode(t[1..]);
    Latin1RoundTrip(bs);
    Utf8.DecodeEncode(t);
  }

  /* ---------------- XML text ---------------- */

  /** `html.EscapeString` of one rune. */
  function EscapeRune(c: char): string {
    if c == '<' then "&lt;"
    else if c == '>' then "&gt;"
    else if c == '&' then "&amp;"
    else if c == '\'' then "&#39;"
    else if c == '"' then "&#34;"
    else [c]
  }

  /** `xmlEscape`: no markup rune survives. */
  function XmlEscape(s: string): (r: string)
    ensures forall c | c in r :: c != '<' && c != '>' && c != '"' && c != '\''
  {
    if |s| == 0 then "" else EscapeRune(s[0]) + XmlEscape(s[1..])
  }

  /** The rune a reference at the start of `s` stands for, and the
      reference's length. */
  function Reference(s: string): (r: Option<(char, nat)>)
    ensures r.Some? ==> 0 < r.value.1 <= |s| && s[0] == '&'
  {
    if HasPrefix(s, "&lt;") then Some(('<', 4))
    else if HasPrefix(s, "&gt;") then Some(('>', 4))
    else if HasPrefix(s, "&amp;") then Some(('&', 5))
    else if HasPrefix(s, "&#39;") then Some(('\'', 5))
    else if HasPrefix(s, "&#34;") then Some(('"', 5))
    else None
  }

  /** What an XML reader makes of escaped text: the five references are
      replaced by their runes (section 4.6 of XML 1.0, and character
      references for the quotes). */
  function Unescape(s: string): string
    decreases |s|
  {
    if |s| == 0 then ""
    else
      match Reference(s)
      case Some((c, n)) => [c] + Unescape(s[n..])
      case None => [s[0]] + Unescape(s[1..])
  }

  /** An escaped rune is read as one reference. */
  lemma ReferenceOfEscape(c: char, rest: string)
    requires EscapeRune(c) != [c]
    ensures Reference(EscapeRune(c) + rest) == Some((c, |EscapeRune(c)|))
  {
    var e := EscapeRune(c);
    var t := e + rest;
    assert t[..|e|] == e;
    if c == '>' {
      assert t[1] == 'g';
    } else if c == '&' {
      assert t[1] == 'a';
    } else if c == '\'' {
      assert t[1] == '#' && t[2] == '3' && t[3] == '9';
    } else if c == '"' {
      assert t[1] == '#' && t[2] == '3' && t[3] == '4';
    }
  }

  lemma UnescapeStep(c: char, rest: string)
    ensures Unescape(EscapeRune(c) + rest) == [c] + Unescape(rest)
  {
    var e := EscapeRune(c);
    var t := e + rest;
    assert t[|e|..] == rest;
    if e != [c] {
      ReferenceOfEscape(c, rest);
    } else {
      assert t[0] == c && c != '&';
      assert t[1..] == rest;
    }
  }

  /** A reader gets back exactly the text that was escaped. */
  lemma {:induction false} UnescapeEscape(s: string)
    ensures Unescape(XmlEscape(s)) == s
  {
    if |s| > 0 {
      UnescapeStep(s[0], XmlEscape(s[1..]));
      UnescapeEscape(s[1..]);
      assert [s[0]] + s[1..] == s;
    }
  }

  /* ---------------- the WordprocessingML body ---------------- */

  /** A `w:p` element: runs of one size, or a code block's text. */
  datatype Para = TextPara(runs: seq<Inline>, size: nat, heading: bool) | CodePara(text: string)

  /** 12 pt, in half-points. */
  const BodySize := 24
  /** 11 pt. */
  const CodeSize := 22

  function Max(a: int, b: int): int {
    if a < b then b else a
  }

  /** A heading's size in half-points: 16 pt for level 1, 1.5 pt less per
      level, never below 9 pt. */
  function HeadingSize(level: nat): (size: nat)
    ensures size >= 18
    ensures level >= 1 ==> size <= 32
  {
    Max(18, 32 - (level - 1) * 3)
  }

  /** Levels 1 to 6 get 16, 14.5, 13, 11.5, 10 and 9 pt: from level 4 on a
      heading is smaller than body text. */
  lemma HeadingSizes()
    ensures seq(6, i requires 0 <= i < 6 => HeadingSize(i + 1)) == [32, 29, 26, 23, 20, 18]
    ensures forall level | 4 <= level <= 6 :: HeadingSize(level) < BodySize
    ensures forall level | 1 <= level <= 3 :: HeadingSize(level) > BodySize
  {
  }

  /** The marker put before list item `i`: a bullet, or its number from 1
      followed by ". ". */
  function ItemPrefix(ordered: bool, i: nat): (r: string)
    ensures !ordered ==> r == "• "
    ensures ordered ==> |r| >= 3 && r[|r| - 2..] == ". " && ParseDecimal(r[..|r| - 2]) == Some(i + 1)
  {
    if ordered then
      DecimalRoundTrip(i + 1);
      var d := Decimal(i + 1);
      assert (d + ". ")[..|d|] == d;
      d + ". "
    else "• "
  }

  /** The paragraphs of one block: one for a heading, a paragraph or a code
      block, one per item for a list, each item led by its marker in bold. */
  function BlockParas(b: Block, gb: Gb18030): (r: seq<Para>)
    ensures b.ListBlock? ==> |r| == |b.items|
    ensures !b.ListBlock? ==> |r| == 1
    ensures b.ListBlock? ==> forall i | 0 <= i < |r| ::
      r[i] == TextPara([Inline(ItemPrefix(b.ordered, i), true, false, false)] + b.items[i], BodySize, false)
  {
    match b
    case Heading(level, inlines) => [TextPara(inlines, HeadingSize(level), true)]
    case Paragraph(inlines) => [TextPara(inlines, BodySize, false)]
    case ListBlock(ordered, items) =>
      seq(|items|, i requires 0 <= i < |items| => TextPara([Inline(ItemPrefix(ordered, i), true, false, false)] + items[i], BodySize, false))
    case CodeBlock(lines) => [CodePara(JoinInlines(CodeRuns(lines), gb))]
  }

  /** A code block's lines as runs, each followed by a line feed run. */
  function CodeRuns(lines: seq<string>): seq<Inline> {
    if |lines| == 0 then [] else [PlainRun(lines[0]), PlainRun("\n")] + CodeRuns(lines[1..])
  }

  /** `joinInlines`: the repaired texts, concatenated. */
  function JoinInlines(xs: seq<Inline>, gb: Gb18030): string {
    if |xs| == 0 then "" else RepairChinese(xs[0].text, gb) + JoinInlines(xs[1..], gb)
  }

  /** Each line, repaired, then a line feed. */
  function CodeLines(lines: seq<string>, gb: Gb18030): string {
    if |lines| == 0 then "" else RepairChinese(lines[0], gb) + "\n" + CodeLines(lines[1..], gb)
  }

  /** A code block's text is its lines, each repaired and ended by a line
      feed. */
  lemma {:induction false} CodeText(lines: seq<string>, gb: Gb18030)
    ensures JoinInlines(CodeRuns(lines), gb) == CodeLines(lines, gb)
  {
    if |lines| > 0 {
      CodeText(lines[1..], gb);
      CodeStep(lines, gb);
    }
  }

  /** The first line of a code block and its line feed, then the rest. */
  lemma CodeStep(lines: seq<string>, gb: Gb18030)
    requires |lines| > 0
    ensures JoinInlines(CodeRuns(lines), gb) ==
      RepairChinese(lines[0], gb) + "\n" + JoinInlines(CodeRuns(lines[1..]), gb)
  {
    var rest := CodeRuns(lines[1..]);
    var tail := [PlainRun("\n")] + rest;
    CodeRunsCons(lines);
    JoinCons(PlainRun(lines[0]), tail, gb);
    JoinNewline(rest, gb);
    var r0, j := RepairChinese(lines[0], gb), JoinInlines(rest, gb);
    assert JoinInlines(CodeRuns(lines), gb) == r0 + ("\n" + j);
    ConcatAssoc(r0, "\n", j);
  }

  lemma CodeRunsCons(lines: seq<string>)
    requires |lines| > 0
    ensures CodeRuns(lines) == [PlainRun(lines[0])] + ([PlainRun("\n")] + CodeRuns(lines[1..]))
  {
  }

  /** A line feed run is kept as it is. */
  lemma JoinNewline(rest: seq<Inline>, gb: Gb18030)
    ensures JoinInlines([PlainRun("\n")] + rest, gb) == "\n" + JoinInlines(rest, gb)
  {
    JoinCons(PlainRun("\n"), rest, gb);
    RepairKeepsAscii("\n", gb);
  }

  lemma JoinCons(x: Inline, rest: seq<Inline>, gb: Gb18030)
    ensures JoinInlines([x] + rest, gb) == RepairChinese(x.text, gb) + JoinInlines(rest, gb)
  {
    assert ([x] + rest)[1..] == rest;
  }

  /** ASCII code is kept verbatim. */
  lemma {:induction false} CodeVerbatim(lines: seq<string>, gb: Gb18030)
    requires forall k, i | 0 <= k < |lines| && 0 <= i < |lines[k]| :: lines[k][i] as int < 0x80
    ensures CodeLines(lines, gb) == Concat(seq(|lines|, k requires 0 <= k < |lines| => lines[k] + "\n"))
  {
    if |lines| > 0 {
      RepairKeepsAscii(lines[0], gb);
      CodeVerbatim(lines[1..], gb);
      var all := seq(|lines|, k requires 0 <= k < |lines| => lines[k] + "\n");
      assert all[1..] == seq(|lines| - 1, k requires 0 <= k < |lines| - 1 => lines[1..][k] + "\n");
    }
  }

  const XmlHeader := "<?xml version=\"1.0\" encoding=\"UTF-8\" standalone=\"yes\"?>"
  const DocumentOpen := "<w:document xmlns:w=\"http://schemas.openxmlformats.org/wordprocessingml/2006/main\" xmlns:r=\"http://schemas.openxmlformats.org/officeDocument/2006/relationships\"><w:body>"
  /** A4 with 2.54 cm margins. */
  const SectionProperties := "<w:sectPr><w:pgSz w:w=\"11906\" w:h=\"16838\"/><w:pgMar w:top=\"1440\" w:right=\"1440\" w:bottom=\"1440\" w:left=\"1440\" w:header=\"708\" w:footer=\"708\" w:gutter=\"0\"/></w:sectPr>"
  const DocumentClose := "</w:body></w:document>"
  const CourierFonts := "<w:rFonts w:ascii=\"Courier New\" w:hAnsi=\"Courier New\"/>"
  const TextOpen := "<w:t xml:space=\"preserve\">"
  const RunClose := "</w:t></w:r>"

  /** A `w:r` element: its style marks, its size, its escaped text. */
  function RunXml(x: Inline, size: nat): string {
    "<w:r><w:rPr>"
      + (if x.bold then "<w:b/>" else "")
      + (if x.italic then "<w:i/>" else "")
      + (if x.code then CourierFonts else "")
      + "<w:sz w:val=\"" + Decimal(size) + "\"/></w:rPr>" + TextOpen + XmlEscape(x.text) + RunClose
  }

  function RunsXml(xs: seq<Inline>, size: nat): string {
    if |xs| == 0 then "" else RunXml(xs[0], size) + RunsXml(xs[1..], size)
  }

  /** `paragraphXML` and `paragraphXMLCode`. */
  function ParaXml(p: Para): string {
    match p
    case TextPara(runs, size, heading) =>
      "<w:p><w:rPr>" + (if heading then "<w:b/>" else "") + "</w:rPr>" + RunsXml(runs, size) + "</w:p>"
    case CodePara(text) =>
      "<w:p><w:r><w:rPr>" + CourierFonts + "<w:sz w:val=\"22\"/></w:rPr>" + TextOpen + XmlEscape(text) + RunClose + "</w:p>"
  }

  /** The paragraphs of a document, block after block. */
  function DocParas(doc: seq<Block>, gb: Gb18030): seq<Para> {
    if |doc| == 0 then [] else BlockParas(doc[0], gb) + DocParas(doc[1..], gb)
  }

  function ParasXml(ps: seq<Para>): string {
    if |ps| == 0 then "" else ParaXml(ps[0]) + ParasXml(ps[1..])
  }

  /** `buildWordDocumentXML`. */
  function DocumentXml(doc: seq<Block>, gb: Gb18030): string {
    XmlHeader + DocumentOpen + ParasXml(DocParas(doc, gb)) + SectionProperties + DocumentClose
  }

  /** A reader's view of a run: the text between the opening `w:t` tag and
      the run's closing tags, unescaped. */
  function RunText(xml: string): string {
    if |xml| < |RunClose| then "" else Unescape(AfterLast(xml[..|xml| - |RunClose|], '>'))
  }

  /** Every run's text is read back from its XML as it was, whatever it
      holds, because the escaped text holds no `>` and no `<`. */
  lemma RunTextRoundTrip(x: Inline, size: nat)
    ensures RunText(RunXml(x, size)) == x.text
  {
    var e := XmlEscape(x.text);
    var head := "<w:r><w:rPr>"
      + (if x.bold then "<w:b/>" else "")
      + (if x.italic then "<w:i/>" else "")
      + (if x.code then CourierFonts else "")
      + "<w:sz w:val=\"" + Decimal(size) + "\"/></w:rPr>" + TextOpen;
    assert RunXml(x, size) == head + e + RunClose;
    assert (head + e + RunClose)[..|head + e + RunClose| - |RunClose|] == head + e;
    assert head[|head| - 1] == '>';
    AfterLastAppend(head, e, '>');
    UnescapeEscape(x.text);
  }

  /* ---------------- the package ---------------- */

  /** Go's string order: byte-wise, which on UTF-8 is rune order. */
  predicate Less(a: string, b: string)
    decreases |a|
  {
    if |a| == 0 then |b| > 0
    else if |b| == 0 then false
    else if a[0] < b[0] then true
    else a[0] == b[0] && Less(a[1..], b[1..])
  }

  predicate LessEq(a: string, b: string) {
    a == b || Less(a, b)
  }

  lemma {:induction false} LessIrreflexive(a: string)
    ensures !Less(a, a)
  {
    if |a| > 0 {
      LessIrreflexive(a[1..]);
    }
  }

  lemma {:induction false} LessTrans(a: string, b: string, c: string)
    requires Less(a, b) && Less(b, c)
    ensures Less(a, c)
  {
    if |a| > 0 && |b| > 0 && |c| > 0 && a[0] == b[0] && b[0] == c[0] {
      LessTrans(a[1..], b[1..], c[1..]);
    }
  }

  lemma {:induction false} LessTotal(a: string, b: string)
    ensures a == b || Less(a, b) || Less(b, a)
  {
    if |a| > 0 && |b| > 0 && a[0] == b[0] {
      LessTotal(a[1..], b[1..]);
      if a[1..] == b[1..] {
        assert a == [a[0]] + a[1..] && b == [b[0]] + b[1..];
      }
    }
  }

  lemma LessAntisymmetric(a: string, b: string)
    requires LessEq(a, b) && LessEq(b, a)
    ensures a == b
  {
    if a != b {
      LessTrans(a, b, a);
      LessIrreflexive(a);
    }
  }

  predicate SortedNames(xs: seq<string>) {
    forall i, j | 0 <= i < j < |xs| :: LessEq(xs[i], xs[j])
  }

  /** Inserting into sorted names keeps them sorted. */
  function Insert(x: string, xs: seq<string>): (r: seq<string>)
    ensures multiset(r) == multiset(xs) + multiset{x}
    ensures SortedNames(xs) ==> SortedNames(r)
  {
    if |xs| == 0 then [x]
    else if LessEq(x, xs[0]) then
      InsertFront(x, xs);
      [x] + xs
    else
      var rest := Insert(x, xs[1..]);
      assert xs == [xs[0]] + xs[1..];
      LessTotal(x, xs[0]);
      InsertBehind(xs[0], x, xs[1..], rest);
      [xs[0]] + rest
  }

  lemma InsertFront(x: string, xs: seq<string>)
    requires |xs| > 0 && LessEq(x, xs[0])
    ensures SortedNames(xs) ==> SortedNames([x] + xs)
  {
    if SortedNames(xs) {
      forall i, j | 0 <= i < j < |xs| + 1
        ensures LessEq(([x] + xs)[i], ([x] + xs)[j])
      {
        if i == 0 && j > 1 {
          assert LessEq(xs[0], xs[j - 1]);
          if x != xs[0] && xs[0] != xs[j - 1] {
            LessTrans(x, xs[0], xs[j - 1]);
          }
        }
      }
    }
  }

  lemma InsertBehind(y: string, x: string, tail: seq<string>, rest: seq<string>)
    requires Less(y, x)
    requires multiset(rest) == multiset(tail) + multiset{x}
    requires SortedNames([y] + tail) ==> SortedNames(rest)
    ensures SortedNames([y] + tail) ==> SortedNames([y] + rest)
  {
    if SortedNames([y] + tail) {
      forall j | 0 <= j < |rest|
        ensures LessEq(y, rest[j])
      {
        assert rest[j] in multiset(rest);
        if rest[j] != x {
          assert rest[j] in multiset(tail);
          var k :| 0 <= k < |tail| && tail[k] == rest[j];
          var yt := [y] + tail;
          assert yt[0] == y && yt[k + 1] == tail[k];
          assert LessEq(yt[0], yt[k + 1]);
        }
      }
      forall i, j | 0 <= i < j < |rest| + 1
        ensures LessEq(([y] + rest)[i], ([y] + rest)[j])
      {
        if i > 0 {
          assert ([y] + rest)[i] == rest[i - 1];
        }
      }
    }
  }

  /** `sort.Strings`. */
  function SortNames(xs: seq<string>): (r: seq<string>)
    ensures multiset(r) == multiset(xs)
    ensures SortedNames(r)
  {
    if |xs| == 0 then []
    else
      assert xs == [xs[0]] + xs[1..];
      Insert(xs[0], SortNames(xs[1..]))
  }

  /** Sorted names are determined by the names alone. */
  lemma {:induction false} SortedUnique(a: seq<string>, b: seq<string>)
    requires SortedNames(a) && SortedNames(b) && multiset(a) == multiset(b)
    ensures a == b
  {
    assert |a| == |multiset(a)| == |multiset(b)| == |b|;
    if |a| > 0 {
      SortedHeads(a, b);
      DropHead(a);
      DropHead(b);
      SortedUnique(a[1..], b[1..]);
      assert a == [a[0]] + a[1..] && b == [b[0]] + b[1..];
    }
  }

  lemma DropHead(a: seq<string>)
    requires |a| > 0
    ensures multiset(a[1..]) == multiset(a) - multiset{a[0]}
    ensures SortedNames(a) ==> SortedNames(a[1..])
  {
    assert a == [a[0]] + a[1..];
  }

  /** The least name comes first. */
  lemma SortedHeads(a: seq<string>, b: seq<string>)
    requires SortedNames(a) && SortedNames(b) && multiset(a) == multiset(b)
    requires |a| > 0 && |b| > 0
    ensures a[0] == b[0]
  {
    assert a[0] in multiset(b);
    var k :| 0 <= k < |b| && b[k] == a[0];
    assert b[0] in multiset(a);
    var m :| 0 <= m < |a| && a[m] == b[0];
    assert LessEq(b[0], a[0]) by {
      if k > 0 {
        assert LessEq(b[0], b[k]);
      }
    }
    assert LessEq(a[0], b[0]) by {
      if m > 0 {
        assert LessEq(a[0], a[m]);
      }
    }
    LessAntisymmetric(a[0], b[0]);
  }

  /** The parts `renderDOCX` puts in its file map. */
  datatype Part =
    | ContentTypes
    | PackageRels
    | AppProperties
    | CoreProperties(created: string)
    | MainDocument(xml: string)
    | DocumentRels

  function PartName(p: Part): string {
    match p
    case ContentTypes => "[Content_Types].xml"
    case PackageRels => "_rels/.rels"
    case AppProperties => "docProps/app.xml"
    case CoreProperties(_) => "docProps/core.xml"
    case MainDocument(_) => "word/document.xml"
    case DocumentRels => "word/_rels/document.xml.rels"
  }

  /** The file map, keyed by part name. */
  function DocxParts(body: string, now: string): (m: map<string, Part>)
    ensures forall n :: n in m <==> n in PartNames
    ensures forall n | n in m :: PartName(m[n]) == n
    ensures m["word/document.xml"] == MainDocument(body)
  {
    assert "word/document.xml" == PartNames[4];
    map n | n in PartNames :: PartFor(n, body, now)
  }

  /** The part stored under a given name. */
  function PartFor(n: string, body: string, now: string): (p: Part)
    ensures n in PartNames ==> PartName(p) == n
  {
    if n == "[Content_Types].xml" then ContentTypes
    else if n == "_rels/.rels" then PackageRels
    else if n == "docProps/app.xml" then AppProperties
    else if n == "docProps/core.xml" then CoreProperties(now)
    else if n == "word/document.xml" then MainDocument(body)
    else DocumentRels
  }

  const PartNames := ["[Content_Types].xml", "_rels/.rels", "docProps/app.xml", "docProps/core.xml", "word/document.xml", "word/_rels/document.xml.rels"]

  /** The entry order of the archive: the content-types part first, the
      main document last. */
  const ZipOrder := ["[Content_Types].xml", "_rels/.rels", "docProps/app.xml", "docProps/core.xml", "word/_rels/document.xml.rels", "word/document.xml"]

  lemma ZipOrderSorted()
    ensures SortedNames(ZipOrder)
  {
    var z := ZipOrder;
    ZipOrderSteps();
    forall i, j | 0 <= i < j < 6
      ensures LessEq(z[i], z[j])
    {
      ChainLess(z, i, j);
    }
  }

  lemma ZipOrderSteps()
    ensures forall k | 0 <= k < |ZipOrder| - 1 :: Less(ZipOrder[k], ZipOrder[k + 1])
  {
    forall k | 0 <= k < |ZipOrder| - 1
      ensures Less(ZipOrder[k], ZipOrder[k + 1])
    {
      ZipStep(k);
    }
  }

  /** Neighbouring names differ first at rune 0, 9 ("docProps/") or 5
      ("word/"). */
  lemma ZipStep(k: nat)
    requires k < |ZipOrder| - 1
    ensures Less(ZipOrder[k], ZipOrder[k + 1])
  {
    var n := if k == 2 then 9 else if k == 4 then 5 else 0;
    var a, b := ZipOrder[k], ZipOrder[k + 1];
    assert a[..n] == b[..n];
    LessAt(a, b, n);
  }

  /** Strings that agree up to `n` and differ there are ordered by that rune. */
  lemma {:induction false} LessAt(a: string, b: string, n: nat)
    requires n < |a| && n < |b| && a[..n] == b[..n] && a[n] < b[n]
    ensures Less(a, b)
  {
    if n > 0 {
      assert a[0] == a[..n][0] == b[..n][0] == b[0];
      assert a[1..][..n - 1] == a[..n][1..] == b[..n][1..] == b[1..][..n - 1];
      LessAt(a[1..], b[1..], n - 1);
    }
  }

  lemma {:induction false} ChainLess(z: seq<string>, i: nat, j: nat)
    requires forall k | 0 <= k < |z| - 1 :: Less(z[k], z[k + 1])
    requires i < j < |z|
    ensures Less(z[i], z[j])
    decreases j - i
  {
    if j > i + 1 {
      ChainLess(z, i + 1, j);
      LessTrans(z[i], z[i + 1], z[j]);
    }
  }

  /** The entries of the archive: the map's names, sorted, each with its
      part. A Go map ranges over its keys in no fixed order; whatever the
      order, the entries come out the same. */
  function ZipEntries(parts: map<string, Part>, names: seq<string>): (r: seq<(string, Part)>)
    requires forall k | 0 <= k < |names| :: names[k] in parts
    ensures |r| == |names|
    ensures forall k | 0 <= k < |r| :: r[k].0 in parts && r[k].1 == parts[r[k].0]
    ensures SortedNames(EntryNames(r)) && multiset(EntryNames(r)) == multiset(names)
  {
    var sorted := SortNames(names);
    assert forall k | 0 <= k < |sorted| :: sorted[k] in multiset(names);
    assert |sorted| == |multiset(sorted)| == |names|;
    var r := seq(|sorted|, k requires 0 <= k < |sorted| => (sorted[k], parts[sorted[k]]));
    assert EntryNames(r) == sorted;
    r
  }

  function EntryNames(r: seq<(string, Part)>): seq<string> {
    seq(|r|, k requires 0 <= k < |r| => r[k].0)
  }

  /** The six parts go into the archive in the fixed order `ZipOrder`,
      whatever order the map is ranged in. */
  lemma DocxEntryOrder(doc: seq<Block>, gb: Gb18030, now: string, names: seq<string>)
    requires multiset(names) == multiset(PartNames)
    ensures |DocxEntries(doc, gb, now, names)| == 6
    ensures forall k | 0 <= k < 6 ::
      && DocxEntries(doc, gb, now, names)[k].0 == ZipOrder[k]
      && PartName(DocxEntries(doc, gb, now, names)[k].1) == ZipOrder[k]
  {
    var parts := DocxParts(DocumentXml(doc, gb), now);
    DocxNamesKnown(DocumentXml(doc, gb), now, names);
    var r := ZipEntries(parts, names);
    assert r == DocxEntries(doc, gb, now, names);
    EntriesInZipOrder(parts, names);
    forall k | 0 <= k < 6
      ensures r[k].0 == ZipOrder[k] && PartName(r[k].1) == ZipOrder[k]
    {
      assert r[k].0 == EntryNames(r)[k];
    }
  }

  /** Whatever the order of the names, their entries come in `ZipOrder`. */
  lemma EntriesInZipOrder(parts: map<string, Part>, names: seq<string>)
    requires multiset(names) == multiset(PartNames)
    requires forall k | 0 <= k < |names| :: names[k] in parts
    ensures EntryNames(ZipEntries(parts, names)) == ZipOrder
  {
    var r := ZipEntries(parts, names);
    ZipOrderSorted();
    ZipOrderPermutes();
    SortedUnique(EntryNames(r), ZipOrder);
  }

  lemma ZipOrderPermutes()
    ensures multiset(ZipOrder) == multiset(PartNames)
  {
  }

  lemma DocxNamesKnown(body: string, now: string, names: seq<string>)
    requires multiset(names) == multiset(PartNames)
    ensures forall k | 0 <= k < |names| :: names[k] in DocxParts(body, now)
  {
    var parts := DocxParts(body, now);
    forall k | 0 <= k < |names|
      ensures names[k] in parts
    {
      assert names[k] in multiset(PartNames);
    }
  }

  /** The archive entries of a document. */
  function DocxEntries(doc: seq<Block>, gb: Gb18030, now: string, names: seq<string>): seq<(string, Part)>
    requires multiset(names) == multiset(PartNames)
  {
    var body := DocumentXml(doc, gb);
    DocxNamesKnown(body, now, names);
    ZipEntries(DocxParts(body, now), names)
  }

  /* ---------------- ConvertMarkdown ---------------- */

  datatype ConvertError = UnsupportedType | RenderFailed(format: ExportType)

  datatype Export = Export(filename: string, contentType: string, data: seq<Utf8.byte>)

  const DocxContentType := "application/vnd.openxmlformats-officedocument.wordprocessingml.document"

  /** The renderers, whose inner workings are not part of this model: the
      PDF library, the zip writer, the GB18030 decoder and the clock. */
  datatype Renderers = Renderers(
    pdf: seq<Block> -> Option<seq<Utf8.byte>>,
    zip: seq<(string, Part)> -> Option<seq<Utf8.byte>>,
    gb: Gb18030,
    now: string)

  /** `ConvertMarkdown`. `names` is the order in which the file map is
      ranged over. */
  function ConvertMarkdown(typ: string, markdown: string, rr: Renderers, names: seq<string>): (r: Result<Export, ConvertError>)
    requires multiset(names) == multiset(PartNames)
    ensures r == Err(UnsupportedType) <==> ParseExportType(typ).None?
    ensures ParseExportType(typ) == Some(Pdf) ==>
      var data := rr.pdf(ParseMarkdown(NormalizeCrlf(markdown)));
      r == if data.Some? then Ok(Export("export.pdf", "application/pdf", data.value)) else Err(RenderFailed(Pdf))
    ensures ParseExportType(typ) == Some(Docx) ==>
      var doc := ParseMarkdown(NormalizeCrlf(markdown));
      var data := rr.zip(DocxEntries(doc, rr.gb, rr.now, names));
      r == if data.Some? then Ok(Export("export.docx", DocxContentType, data.value)) else Err(RenderFailed(Docx))
  {
    match ParseExportType(typ)
    case None => Err(UnsupportedType)
    case Some(t) =>
      var doc := ParseMarkdown(NormalizeCrlf(markdown));
      match t
      case Pdf =>
        (match rr.pdf(doc)
         case Some(data) => Ok(Export("export.pdf", "application/pdf", data))
         case None => Err(RenderFailed(Pdf)))
      case Docx =>
        match rr.zip(DocxEntries(doc, rr.gb, rr.now, names))
        case Some(data) => Ok(Export("export.docx", DocxContentType, data))
        case None => Err(RenderFailed(Docx))
  }

  /** Every line feed written as CR LF. */
  function ToCrlf(s: string): (r: string) {
    if |s| == 0 then "" else (if s[0] == '\n' then "\r\n" else [s[0]]) + ToCrlf(s[1..])
  }

  lemma {:induction false} NormalizeToCrlf(s: string)
    requires '\r' !in s
    ensures NormalizeCrlf(ToCrlf(s)) == s
  {
    if |s| > 0 {
      NormalizeToCrlf(s[1..]);
      var t := ToCrlf(s);
      if s[0] == '\n' {
        assert t == "\r\n" + ToCrlf(s[1..]);
        assert t[2..] == ToCrlf(s[1..]);
      } else {
        assert t == [s[0]] + ToCrlf(s[1..]);
        assert t[1..] == ToCrlf(s[1..]);
        assert [s[0]] + s[1..] == s;
      }
    }
  }

  /** A document saved with CR LF line ends converts as the same document
      with LF line ends. */
  lemma CrlfInsensitive(typ: string, markdown: string, rr: Renderers, names: seq<string>)
    requires '\r' !in markdown
    requires multiset(names) == multiset(PartNames)
    ensures ConvertMarkdown(typ, ToCrlf(markdown), rr, names) == ConvertMarkdown(typ, markdown, rr, names)
  {
    NormalizeToCrlf(markdown);
    SameNormalForm(typ, ToCrlf(markdown), markdown, rr, names);
  }

  /** The conversion sees the text only after CR LF is normalised. */
  lemma SameNormalForm(typ: string, a: string, b: string, rr: Renderers, names: seq<string>)
    requires multiset(names) == multiset(PartNames)
    requires NormalizeCrlf(a) == NormalizeCrlf(b)
    ensures ConvertMarkdown(typ, a, rr, names) == ConvertMarkdown(typ, b, rr, names)
  {
  }
}
