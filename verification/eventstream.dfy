/** The text/event-stream format of section 9.2.5 of the WHATWG HTML
    Living Standard, as far as the gateway writes it (`event:` and `data:`
    fields, a blank line ending each event, `:` comment lines), together
    with the standard's interpretation of a stream, which serves as the
    reference for what a browser reads from the bytes the gateway wrote. */
module EventStream {
  import opened Text

  /** One event as written: its type and its (single-line) data. */
  datatype SseFrame = SseFrame(name: string, data: string)

  /** `fmt.Fprintf(w, "event: %s\ndata: %s\n\n", name, data)`. */
  function FrameText(f: SseFrame): string {
    "event: " + f.name + "\n" + "data: " + f.data + "\n\n"
  }

  /** Frames written one after another. */
  function Render(fs: seq<SseFrame>): string {
    if |fs| == 0 then "" else FrameText(fs[0]) + Render(fs[1..])
  }

  /** The comment the edit relay writes before its first event. */
  const Connected := ": connected\n\n"

  /** A field value that stays on its line. */
  predicate OneLine(s: string) {
    '\n' !in s && '\r' !in s
  }

  /** A frame a reader gets back as written: a named type and no line
      breaks in either field. (JSON as `json.Marshal` writes it holds no raw
      line break.) */
  predicate Writable(f: SseFrame) {
    f.name != "" && OneLine(f.name) && OneLine(f.data)
  }

  predicate AllWritable(fs: seq<SseFrame>) {
    forall k | 0 <= k < |fs| :: Writable(fs[k])
  }

  /* ---------------- the reader ---------------- */

  /** The reader's buffers between lines. */
  datatype Reader = Reader(eventType: string, data: string)

  const Idle := Reader("", "")

  /** The position of the first colon of a line, or its length. */
  function ColonAt(line: string): (r: nat)
    ensures r <= |line|
    ensures r < |line| ==> line[r] == ':'
    ensures forall i | 0 <= i < r :: line[i] != ':'
  {
    if |line| == 0 || line[0] == ':' then 0 else 1 + ColonAt(line[1..])
  }

  /** A field value loses one leading space. */
  function FieldValue(v: string): string {
    if |v| > 0 && v[0] == ' ' then v[1..] else v
  }

  /** The data buffer loses its final line feed when the event is
      dispatched. */
  function DropFinalLf(s: string): string {
    if |s| > 0 && s[|s| - 1] == '\n' then s[..|s| - 1] else s
  }

  /** One line: a blank line dispatches the buffered event (nothing when
      the data buffer is empty, and "message" when no type was given), a
      line starting with a colon is a comment, and otherwise the field name
      runs to the first colon. Fields other than `event` and `data` do not
      change the buffers. */
  function StepLine(p: Reader, line: string): (Reader, seq<SseFrame>) {
    if line == "" then
      if p.data == "" then (Idle, [])
      else (Idle, [SseFrame(if p.eventType == "" then "message" else p.eventType, DropFinalLf(p.data))])
    else if line[0] == ':' then (p, [])
    else
      var i := ColonAt(line);
      var field := line[..i];
      var value := if i < |line| then FieldValue(line[i + 1..]) else "";
      if field == "event" then (p.(eventType := value), [])
      else if field == "data" then (p.(data := p.data + value + "\n"), [])
      else (p, [])
  }

  /** Lines in order; the events dispatched, and the buffers left. */
  function Feed(p: Reader, lines: seq<string>): (Reader, seq<SseFrame>)
    decreases |lines|
  {
    if |lines| == 0 then (p, [])
    else
      var (p1, d) := StepLine(p, lines[0]);
      var (p2, ds) := Feed(p1, lines[1..]);
      (p2, d + ds)
  }

  /** The events a reader dispatches from `text`: only complete lines are
      interpreted, so the text after the last line feed, and an event whose
      blank line has not arrived, dispatch nothing. */
  function Parse(text: string): seq<SseFrame> {
    var lines := Split(text, '\n');
    Feed(Idle, lines[..|lines| - 1]).1
  }

  /** The lines of a frame. */
  function FrameLines(f: SseFrame): seq<string> {
    ["event: " + f.name, "data: " + f.data, ""]
  }

  function AllLines(fs: seq<SseFrame>): seq<string> {
    if |fs| == 0 then [] else FrameLines(fs[0]) + AllLines(fs[1..])
  }

  lemma FieldOf(name: string, v: string)
    requires name == "event" || name == "data"
    ensures var line := name + ": " + v;
      ColonAt(line) == |name| && line[..|name|] == name && FieldValue(line[|name| + 1..]) == v
  {
    var line := name + ": " + v;
    assert line[|name|] == ':';
    assert line[..|name|] == name;
    assert line[|name| + 1..] == " " + v;
  }

  lemma FrameSplit(f: SseFrame, rest: string)
    requires Writable(f)
    ensures Split(FrameText(f) + rest, '\n') == FrameLines(f) + Split(rest, '\n')
  {
    var a := "event: " + f.name;
    var b := "data: " + f.data;
    assert FrameText(f) + rest == a + ['\n'] + (b + ['\n'] + ("" + ['\n'] + rest));
    assert '\n' !in a;
    assert '\n' !in b;
    SplitAppend(a, b + ['\n'] + ("" + ['\n'] + rest), '\n');
    SplitAppend(b, "" + ['\n'] + rest, '\n');
    SplitAppend("", rest, '\n');
  }

  lemma {:induction false} RenderSplit(fs: seq<SseFrame>, rest: string)
    requires forall k | 0 <= k < |fs| :: Writable(fs[k])
    ensures Split(Render(fs) + rest, '\n') == AllLines(fs) + Split(rest, '\n')
  {
    if |fs| > 0 {
      RenderSplit(fs[1..], rest);
      assert Render(fs) == FrameText(fs[0]) + Render(fs[1..]);
      ConcatAssoc(FrameText(fs[0]), Render(fs[1..]), rest);
      FrameSplit(fs[0], Render(fs[1..]) + rest);
      assert AllLines(fs) == FrameLines(fs[0]) + AllLines(fs[1..]);
      ConcatAssoc(FrameLines(fs[0]), AllLines(fs[1..]), Split(rest, '\n'));
    } else {
      assert Render(fs) + rest == rest;
      assert AllLines(fs) + Split(rest, '\n') == Split(rest, '\n');
    }
  }

  lemma StepEvent(p: Reader, name: string)
    ensures StepLine(p, "event: " + name) == (p.(eventType := name), [])
  {
    FieldOf("event", name);
    assert "event: " + name == "event" + ": " + name;
  }

  lemma StepData(p: Reader, data: string)
    ensures StepLine(p, "data: " + data) == (p.(data := p.data + data + "\n"), [])
  {
    var line := "data: " + data;
    FieldOf("data", data);
    assert line == "data" + ": " + data;
    assert line[0] == 'd';
    assert "data" != "event";
  }

  /** Feeding a line and then the rest. */
  lemma FeedCons(p: Reader, line: string, rest: seq<string>)
    ensures var (p1, d) := StepLine(p, line);
      Feed(p, [line] + rest) == (Feed(p1, rest).0, d + Feed(p1, rest).1)
  {
    assert ([line] + rest)[0] == line;
    assert ([line] + rest)[1..] == rest;
  }

  lemma FeedEventLine(p: Reader, name: string, rest: seq<string>)
    ensures Feed(p, ["event: " + name] + rest) == Feed(p.(eventType := name), rest)
  {
    StepEvent(p, name);
    FeedCons(p, "event: " + name, rest);
    assert [] + Feed(p.(eventType := name), rest).1 == Feed(p.(eventType := name), rest).1;
  }

  lemma FeedDataLine(p: Reader, data: string, rest: seq<string>)
    ensures Feed(p, ["data: " + data] + rest) == Feed(p.(data := p.data + data + "\n"), rest)
  {
    StepData(p, data);
    FeedCons(p, "data: " + data, rest);
    var q := p.(data := p.data + data + "\n");
    assert [] + Feed(q, rest).1 == Feed(q, rest).1;
  }

  lemma FeedBlankLine(f: SseFrame, rest: seq<string>)
    requires Writable(f)
    ensures Feed(Reader(f.name, f.data + "\n"), [""] + rest) == (Feed(Idle, rest).0, [f] + Feed(Idle, rest).1)
  {
    var p := Reader(f.name, f.data + "\n");
    assert DropFinalLf(p.data) == f.data;
    assert StepLine(p, "") == (Idle, [f]);
    FeedCons(p, "", rest);
  }

  lemma FeedFrame(f: SseFrame, more: seq<string>)
    requires Writable(f)
    ensures Feed(Idle, FrameLines(f) + more) == (Feed(Idle, more).0, [f] + Feed(Idle, more).1)
  {
    var a, b := "event: " + f.name, "data: " + f.data;
    assert FrameLines(f) + more == [a] + ([b] + ([""] + more));
    FeedEventLine(Idle, f.name, [b] + ([""] + more));
    var p1 := Reader(f.name, "");
    assert Idle.(eventType := f.name) == p1;
    FeedDataLine(p1, f.data, [""] + more);
    assert p1.(data := p1.data + f.data + "\n") == Reader(f.name, f.data + "\n");
    FeedBlankLine(f, more);
  }

  lemma AllLinesCons(fs: seq<SseFrame>, more: seq<string>)
    requires |fs| > 0
    ensures AllLines(fs) + more == FrameLines(fs[0]) + (AllLines(fs[1..]) + more)
  {
  }

  lemma {:induction false} FeedFrames(fs: seq<SseFrame>, more: seq<string>)
    requires forall k | 0 <= k < |fs| :: Writable(fs[k])
    ensures Feed(Idle, AllLines(fs) + more) == (Feed(Idle, more).0, fs + Feed(Idle, more).1)
  {
    var m := Feed(Idle, more);
    if |fs| > 0 {
      assert forall k | 0 <= k < |fs| - 1 :: fs[1..][k] == fs[k + 1];
      FeedFrames(fs[1..], more);
      FeedFramesStep(fs, more, m.0, m.1);
    } else {
      assert AllLines(fs) + more == more;
      assert fs + m.1 == m.1;
    }
  }

  /** One more frame in front of frames the reader gets back is got back
      first. */
  lemma FeedFramesStep(fs: seq<SseFrame>, more: seq<string>, p: Reader, ds: seq<SseFrame>)
    requires |fs| > 0 && Writable(fs[0])
    requires Feed(Idle, AllLines(fs[1..]) + more) == (p, fs[1..] + ds)
    ensures Feed(Idle, AllLines(fs) + more) == (p, fs + ds)
  {
    var tail := AllLines(fs[1..]) + more;
    AllLinesCons(fs, more);
    FeedFrame(fs[0], tail);
    assert fs == [fs[0]] + fs[1..];
    ConcatAssoc([fs[0]], fs[1..], ds);
  }

  /** A reader gets back exactly the frames written, in order. */
  lemma {:induction false} ParseRender(fs: seq<SseFrame>)
    requires forall k | 0 <= k < |fs| :: Writable(fs[k])
    ensures Parse(Render(fs)) == fs
  {
    RenderSplit(fs, "");
    assert Render(fs) + "" == Render(fs);
    assert Split("", '\n') == [""];
    var lines := AllLines(fs) + [""];
    assert lines[..|lines| - 1] == AllLines(fs) + [];
    FeedFrames(fs, []);
  }

  /** A frame cut after its `event:` line dispatches nothing: the reader
      gets the whole frames before it. */
  lemma {:induction false} ParseCutFrame(fs: seq<SseFrame>, name: string)
    requires forall k | 0 <= k < |fs| :: Writable(fs[k])
    requires OneLine(name)
    ensures Parse(Render(fs) + ("event: " + name + "\n")) == fs
  {
    var line := "event: " + name;
    RenderSplit(fs, line + "\n");
    assert line + "\n" == line + ['\n'] + "";
    SplitAppend(line, "", '\n');
    var lines := AllLines(fs) + ([line] + [""]);
    assert lines[..|lines| - 1] == AllLines(fs) + [line];
    FeedFrames(fs, [line]);
    FieldOf("event", name);
    assert line == "event" + ": " + name;
    assert StepLine(Idle, line).1 == [];
    assert Feed(Idle, [line]).1 == [];
  }

  /** The leading comment dispatches nothing. */
  lemma {:induction false} ParseAfterComment(fs: seq<SseFrame>)
    requires forall k | 0 <= k < |fs| :: Writable(fs[k])
    ensures Parse(Connected + Render(fs)) == fs
  {
    var c := ": connected";
    CommentSplit(fs);
    var ls := [c, ""] + (AllLines(fs) + []);
    FeedFrames(fs, []);
    CommentFeeds(AllLines(fs) + []);
  }

  /** The text after the comment splits into the comment, the blank line
      after it, the frames' lines and the final empty piece. */
  lemma CommentSplit(fs: seq<SseFrame>)
    requires forall k | 0 <= k < |fs| :: Writable(fs[k])
    ensures var lines := Split(Connected + Render(fs), '\n');
      |lines| > 0 && lines[..|lines| - 1] == [": connected", ""] + (AllLines(fs) + [])
  {
    var c := ": connected";
    var r := Render(fs);
    assert Connected == c + "\n\n";
    LineThenBlank(c, r);
    RenderSplit(fs, "");
    assert r + "" == r;
    assert Split("", '\n') == [""];
    var lines := [c, ""] + (AllLines(fs) + [""]);
    assert lines[..|lines| - 1] == [c, ""] + (AllLines(fs) + []);
  }

  /** A line and a blank line in front of `rest` split off as two pieces. */
  lemma LineThenBlank(a: string, rest: string)
    requires '\n' !in a
    ensures Split(a + "\n\n" + rest, '\n') == [a, ""] + Split(rest, '\n')
  {
    assert a + "\n\n" + rest == a + ['\n'] + ("" + ['\n'] + rest);
    SplitAppend(a, "" + ['\n'] + rest, '\n');
    SplitAppend("", rest, '\n');
  }

  /** Feeding the comment and the blank line first changes nothing. */
  lemma CommentFeeds(more: seq<string>)
    ensures Feed(Idle, [": connected", ""] + more) == Feed(Idle, more)
  {
    var c := ": connected";
    assert c[0] == ':';
    var ls := [c, ""] + more;
    var tail := ls[1..];
    assert ls[0] == c && tail[0] == "" && tail[1..] == more;
    var m := Feed(Idle, more);
    assert StepLine(Idle, "") == (Idle, []);
    assert Feed(Idle, tail) == (m.0, [] + m.1);
    assert StepLine(Idle, c) == (Idle, []);
    assert Feed(Idle, ls) == (m.0, [] + ([] + m.1));
    assert [] + ([] + m.1) == m.1;
  }
}
