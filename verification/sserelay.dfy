/** The gateway's streaming endpoints (api/internal/logic/chat:
    chatCompletionsLogic.go, chatResumeLogic.go, editdocumentlogic.go):
    each checks the caller, opens the rpc stream and relays the rpc
    service's events to the HTTP response as server-sent events. */
module SseRelay {
  import opened Wrappers
  import opened Text
  import opened LlmTypes
  import opened EventStream
  import Enrich
  import ChatCompletionsRpc
  import EditDocumentRpc

  datatype RelayKind = ChatRelay | ResumeRelay | EditRelay

  /** How the rpc stream ended after its events: `io.EOF`, or another
      receive error with its gRPC status code and message. */
  datatype StreamEnd = Eof | RecvError(code: nat, message: string)

  /** The HTTP response body: the writes that reached the client. The
      connection takes `capacity` writes; every later one fails. */
  datatype Writer = Writer(writes: seq<string>, capacity: nat) {
    function Write(s: string): (r: (Writer, bool))
      ensures r.1 <==> |writes| < capacity
      ensures r.1 ==> r.0 == Writer(writes + [s], capacity)
      ensures !r.1 ==> r.0 == this
    {
      if |writes| < capacity then (Writer(writes + [s], capacity), true) else (this, false)
    }

    /** How many more writes the connection takes. */
    function Room(): nat {
      if |writes| < capacity then capacity - |writes| else 0
    }

    function Body(): string {
      Concat(writes)
    }
  }

  /** `json.Marshal`: of each event's protobuf payload, and of a string. */
  datatype Json = Json(event: Event -> string, quote: string -> string)

  /** `json.Marshal` escapes line breaks inside strings and writes no
      whitespace between tokens, so its output is one line. */
  ghost predicate Compact(j: Json) {
    && (forall e: Event :: OneLine(j.event(e)))
    && (forall s: string :: OneLine(j.quote(s)))
  }

  function EventName(e: Event): string {
    match e
    case MessageEvent(_) => "message"
    case InterruptEvent(_, _, _) => "interrupt"
    case EndEvent(_, _) => "end"
  }

  /** The payload of the "error" frame: the map {"code", "message"}, whose
      keys `json.Marshal` writes in sorted order. */
  function ErrorJson(j: Json, code: nat, message: string): string {
    "{\"code\":" + Decimal(code) + ",\"message\":" + j.quote(message) + "}"
  }

  function EventFrame(j: Json, e: Event): SseFrame {
    SseFrame(EventName(e), j.event(e))
  }

  /** The frames a relay writes when every write succeeds: message events
      (and, on the chat relay, interrupt events) in order, until the first
      end event; when the stream ends without one, the resume and edit
      relays add an "error" frame for a receive error other than EOF. */
  function Planned(kind: RelayKind, events: seq<Event>, end: StreamEnd, j: Json): seq<SseFrame>
    decreases |events|
  {
    if |events| == 0 then
      if end.RecvError? && kind != ChatRelay then [SseFrame("error", ErrorJson(j, end.code, end.message))] else []
    else
      var e := events[0];
      if e.EndEvent? then [EventFrame(j, e)]
      else if e.InterruptEvent? && kind != ChatRelay then Planned(kind, events[1..], end, j)
      else [EventFrame(j, e)] + Planned(kind, events[1..], end, j)
  }

  /** Only the last frame can be "end" or "error"; it is "end" exactly when
      the stream carried an end event, and "error" exactly when a resume or
      edit stream broke before one; the chat relay never writes an "error"
      frame, and only the chat relay writes "interrupt" frames. */
  ghost predicate PlanShape(kind: RelayKind, events: seq<Event>, end: StreamEnd, fs: seq<SseFrame>) {
    && (forall k | 0 <= k < |fs| - 1 :: fs[k].name == "message" || fs[k].name == "interrupt")
    && (kind != ChatRelay ==> forall k | 0 <= k < |fs| :: fs[k].name != "interrupt")
    && (kind == ChatRelay ==> forall k | 0 <= k < |fs| :: fs[k].name != "error")
    && ((exists i | 0 <= i < |events| :: events[i].EndEvent?) <==> (|fs| > 0 && fs[|fs| - 1].name == "end"))
    && ((|fs| > 0 && fs[|fs| - 1].name == "error") <==>
          (kind != ChatRelay && end.RecvError? && forall i | 0 <= i < |events| :: !events[i].EndEvent?))
  }

  lemma {:induction false} PlannedShape(kind: RelayKind, events: seq<Event>, end: StreamEnd, j: Json)
    ensures PlanShape(kind, events, end, Planned(kind, events, end, j))
  {
    if |events| > 0 {
      PlannedShape(kind, events[1..], end, j);
      assert forall i | 1 <= i < |events| :: events[i] == events[1..][i - 1];
    }
  }

  /** The chat and resume relays write a frame in two writes, the `data:`
      line only when the `event:` line went through. */
  function SendTwice(w: Writer, f: SseFrame): (Writer, bool) {
    var (w1, ok) := w.Write("event: " + f.name + "\n");
    if !ok then (w1, false) else w1.Write("data: " + f.data + "\n\n")
  }

  function TwoWrites(fs: seq<SseFrame>): (ws: seq<string>)
    ensures |ws| == 2 * |fs|
  {
    if |fs| == 0 then [] else ["event: " + fs[0].name + "\n", "data: " + fs[0].data + "\n\n"] + TwoWrites(fs[1..])
  }

  /** The edit relay writes each frame in one write. */
  function OneWrites(fs: seq<SseFrame>): (ws: seq<string>)
    ensures |ws| == |fs|
  {
    if |fs| == 0 then [] else [FrameText(fs[0])] + OneWrites(fs[1..])
  }

  /** The writes a relay issues when every write succeeds. */
  function PlannedWrites(kind: RelayKind, fs: seq<SseFrame>): seq<string> {
    if kind == EditRelay then [Connected] + OneWrites(fs) else TwoWrites(fs)
  }

  lemma TwoWritesCons(f: SseFrame, fs: seq<SseFrame>)
    ensures TwoWrites([f] + fs) == ["event: " + f.name + "\n", "data: " + f.data + "\n\n"] + TwoWrites(fs)
  {
    assert ([f] + fs)[1..] == fs;
  }

  function Min(a: nat, b: nat): nat {
    if a <= b then a else b
  }

  /** `r` is `w` after the planned writes `pw`, as far as the connection
      took them. */
  predicate Accepts(w: Writer, pw: seq<string>, r: Writer) {
    r.capacity == w.capacity && r.writes == w.writes + pw[..Min(|pw|, w.Room())]
  }

  lemma PrefixAfter(head: seq<string>, rest: seq<string>, room: nat)
    requires |head| <= room
    ensures (head + rest)[..Min(|head| + |rest|, room)] == head + rest[..Min(|rest|, room - |head|)]
  {
  }

  lemma SendTwiceAccepts(w: Writer, f: SseFrame, rest: seq<string>)
    ensures var (w1, ok) := SendTwice(w, f);
      var pw := ["event: " + f.name + "\n", "data: " + f.data + "\n\n"] + rest;
      && (ok <==> w.Room() >= 2)
      && (!ok ==> Accepts(w, pw, w1))
      && (ok ==> w1 == Writer(w.writes + pw[..2], w.capacity) && w1.Room() == w.Room() - 2)
  {
    var pw := ["event: " + f.name + "\n", "data: " + f.data + "\n\n"] + rest;
    if w.Room() == 1 {
      assert pw[..Min(|pw|, 1)] == [pw[0]];
    } else if w.Room() >= 2 {
      assert pw[..2] == [pw[0], pw[1]];
    }
  }

  /** The chat relay's loop: every event is written; a failed write, or the
      end event, ends it; EOF and receive errors end it silently. */
  function ChatLoop(events: seq<Event>, j: Json, w: Writer): (r: Writer)
    decreases |events|
    ensures Accepts(w, TwoWrites(Planned(ChatRelay, events, Eof, j)), r)
  {
    if |events| == 0 then w
    else
      var (w1, ok) := SendTwice(w, EventFrame(j, events[0]));
      if !ok || events[0].EndEvent? then
        ChatStep(events, j, w, w1);
        w1
      else
        var r := ChatLoop(events[1..], j, w1);
        ChatStep(events, j, w, r);
        r
  }

  /** One turn of the chat relay's loop: a failed write or the end event
      leaves the first frame's writes as the whole answer; otherwise what
      the rest of the loop takes completes it. */
  lemma ChatStep(events: seq<Event>, j: Json, w: Writer, r: Writer)
    requires |events| > 0
    ensures var (w1, ok) := SendTwice(w, EventFrame(j, events[0]));
      && (!ok || events[0].EndEvent? ==> Accepts(w, TwoWrites(Planned(ChatRelay, events, Eof, j)), w1))
      && (ok && !events[0].EndEvent? && Accepts(w1, TwoWrites(Planned(ChatRelay, events[1..], Eof, j)), r) ==>
            Accepts(w, TwoWrites(Planned(ChatRelay, events, Eof, j)), r))
  {
    var f := EventFrame(j, events[0]);
    if events[0].EndEvent? {
      assert Planned(ChatRelay, events, Eof, j) == [f] + [];
      TwoWritesCons(f, []);
      SendTwiceAccepts(w, f, []);
    } else {
      var rest := Planned(ChatRelay, events[1..], Eof, j);
      assert Planned(ChatRelay, events, Eof, j) == [f] + rest;
      TwoWritesCons(f, rest);
      SendTwiceAccepts(w, f, TwoWrites(rest));
      var (w1, ok) := SendTwice(w, f);
      if ok && Accepts(w1, TwoWrites(rest), r) {
        AcceptsAfter(w, ["event: " + f.name + "\n", "data: " + f.data + "\n\n"], TwoWrites(rest), w1, r);
      }
    }
  }

  /** Writes the connection took in full, followed by what it took of the
      rest, are what it took of both. */
  lemma AcceptsAfter(w: Writer, head: seq<string>, rest: seq<string>, w1: Writer, r: Writer)
    requires |head| <= w.Room() && w1 == Writer(w.writes + head, w.capacity)
    requires Accepts(w1, rest, r)
    ensures Accepts(w, head + rest, r)
  {
    PrefixAfter(head, rest, w.Room());
    assert w1.Room() == w.Room() - |head|;
    ConcatAssoc(w.writes, head, rest[..Min(|rest|, w.Room() - |head|)]);
  }

  /** The resume relay's loop: message events are written, a failed write
      ends it, the end event is written last, and a receive error other
      than EOF is reported in one "error" frame. */
  function ResumeLoop(events: seq<Event>, end: StreamEnd, j: Json, w: Writer): (r: Writer)
    decreases |events|
    ensures Accepts(w, TwoWrites(Planned(ResumeRelay, events, end, j)), r)
  {
    if |events| == 0 then
      if end.RecvError? then
        var f := SseFrame("error", ErrorJson(j, end.code, end.message));
        SendTwiceAccepts(w, f, []);
        SendTwice(w, f).0
      else w
    else
      var e := events[0];
      if e.InterruptEvent? then ResumeLoop(events[1..], end, j, w)
      else
        var (w1, ok) := SendTwice(w, EventFrame(j, e));
        var rest := TwoWrites(Planned(ResumeRelay, events[1..], end, j));
        SendTwiceAccepts(w, EventFrame(j, e), if e.EndEvent? then [] else rest);
        if !ok || e.EndEvent? then w1
        else
          PrefixAfter(TwoWrites([EventFrame(j, e)]), rest, w.Room());
          ResumeLoop(events[1..], end, j, w1)
  }

  /** The edit relay's loop: write errors are ignored, the end event is
      written last, and a receive error other than EOF is reported in one
      "error" frame. */
  function EditLoop(events: seq<Event>, end: StreamEnd, j: Json, w: Writer): (r: Writer)
    decreases |events|
    ensures Accepts(w, OneWrites(Planned(EditRelay, events, end, j)), r)
  {
    if |events| == 0 then
      if end.RecvError? then w.Write(FrameText(SseFrame("error", ErrorJson(j, end.code, end.message)))).0 else w
    else
      var e := events[0];
      if e.InterruptEvent? then EditLoop(events[1..], end, j, w)
      else
        var (w1, _) := w.Write(FrameText(EventFrame(j, e)));
        if e.EndEvent? then w1
        else
          var rest := OneWrites(Planned(EditRelay, events[1..], end, j));
          if w.Room() > 0 then
            PrefixAfter([FrameText(EventFrame(j, e))], rest, w.Room());
            EditLoop(events[1..], end, j, w1)
          else EditLoop(events[1..], end, j, w1)
  }

  /** The relay of an opened stream, from the first write of the
      response. */
  function Relay(kind: RelayKind, events: seq<Event>, end: StreamEnd, j: Json, w: Writer): (r: Writer)
    ensures Accepts(w, PlannedWrites(kind, Planned(kind, events, end, j)), r)
  {
    match kind
    case ChatRelay =>
      assert Planned(ChatRelay, events, end, j) == Planned(ChatRelay, events, Eof, j) by {
        PlannedChatIgnoresEnd(events, end, j);
      }
      ChatLoop(events, j, w)
    case ResumeRelay => ResumeLoop(events, end, j, w)
    case EditRelay =>
      var (w1, ok) := w.Write(Connected);
      var pw := OneWrites(Planned(EditRelay, events, end, j));
      if ok then
        PrefixAfter([Connected], pw, w.Room());
        EditLoop(events, end, j, w1)
      else EditLoop(events, end, j, w1)
  }

  lemma {:induction false} PlannedChatIgnoresEnd(events: seq<Event>, end: StreamEnd, j: Json)
    ensures Planned(ChatRelay, events, end, j) == Planned(ChatRelay, events, Eof, j)
  {
    if |events| > 0 {
      PlannedChatIgnoresEnd(events[1..], end, j);
    }
  }

  /* ---------------- what the client reads ---------------- */

  lemma DecimalOneLine(n: nat)
    ensures OneLine(Decimal(n))
  {
    var d := Decimal(n);
    assert forall i | 0 <= i < |d| :: IsDigit(d[i]);
  }

  lemma ErrorFrameWritable(j: Json, code: nat, message: string)
    requires Compact(j)
    ensures Writable(SseFrame("error", ErrorJson(j, code, message)))
  {
    DecimalOneLine(code);
    assert OneLine(j.quote(message));
  }

  lemma EventFrameWritable(j: Json, e: Event)
    requires Compact(j)
    ensures Writable(EventFrame(j, e))
  {
    assert OneLine(j.event(e));
  }

  /** With one-line JSON, every planned frame reads back as written. */
  lemma {:induction false} PlannedWritable(kind: RelayKind, events: seq<Event>, end: StreamEnd, j: Json)
    requires Compact(j)
    ensures AllWritable(Planned(kind, events, end, j))
  {
    if |events| == 0 {
      if end.RecvError? && kind != ChatRelay {
        ErrorFrameWritable(j, end.code, end.message);
      }
    } else {
      PlannedWritable(kind, events[1..], end, j);
      var f := EventFrame(j, events[0]);
      EventFrameWritable(j, events[0]);
      if !events[0].EndEvent? && !(events[0].InterruptEvent? && kind != ChatRelay) {
        ConsWritable(f, Planned(kind, events[1..], end, j));
      }
    }
  }

  lemma ConsWritable(f: SseFrame, rest: seq<SseFrame>)
    requires Writable(f) && AllWritable(rest)
    ensures AllWritable([f] + rest)
  {
    var fs := [f] + rest;
    forall k | 0 <= k < |fs| ensures Writable(fs[k]) {
      if k > 0 {
        assert fs[k] == rest[k - 1];
      }
    }
  }

  lemma RenderPrefixStep(fs: seq<SseFrame>, m: nat)
    requires 1 <= m <= |fs|
    ensures Render(fs[..m]) == FrameText(fs[0]) + Render(fs[1..][..m - 1])
  {
    assert fs[..m][1..] == fs[1..][..m - 1];
  }

  /** The first `n` of the two-write plan: whole frames, then perhaps the
      `event:` line of the next. */
  lemma {:induction false} ConcatTwoWrites(fs: seq<SseFrame>, n: nat)
    requires n <= 2 * |fs|
    ensures Concat(TwoWrites(fs)[..n]) ==
      Render(fs[..n / 2]) + (if n % 2 == 1 then "event: " + fs[n / 2].name + "\n" else "")
  {
    var ws := TwoWrites(fs);
    if n == 0 {
      assert ws[..0] == [];
    } else if n == 1 {
      assert ws[..1] == [ws[0]];
      assert Concat([ws[0]]) == ws[0] + Concat([]);
    } else {
      var a := "event: " + fs[0].name + "\n";
      var b := "data: " + fs[0].data + "\n\n";
      var tail := TwoWrites(fs[1..]);
      assert ws == [a, b] + tail;
      assert ws[..n] == [a, b] + tail[..n - 2];
      var h := n / 2;
      HalfStep(n);
      var cut := if n % 2 == 1 then "event: " + fs[h].name + "\n" else "";
      ConcatTwoWrites(fs[1..], n - 2);
      assert Concat(tail[..n - 2]) == Render(fs[1..][..h - 1]) + cut by {
        if n % 2 == 1 {
          assert fs[1..][(n - 2) / 2] == fs[h];
        }
      }
      ConcatPair(a, b, tail[..n - 2]);
      RenderPrefixStep(fs, h);
      assert FrameText(fs[0]) == a + b;
      ConcatAssoc(a + b, Render(fs[1..][..h - 1]), cut);
    }
  }

  lemma ConcatPair(a: string, b: string, rest: seq<string>)
    ensures Concat([a, b] + rest) == a + b + Concat(rest)
  {
    assert ([a, b] + rest)[1..] == [b] + rest;
    assert ([b] + rest)[1..] == rest;
  }

  lemma HalfStep(n: nat)
    requires n >= 2
    ensures n / 2 >= 1 && (n - 2) / 2 == n / 2 - 1 && (n - 2) % 2 == n % 2
  {
  }

  /** The first `n` of the one-write plan are whole frames. */
  lemma {:induction false} ConcatOneWrites(fs: seq<SseFrame>, n: nat)
    requires n <= |fs|
    ensures Concat(OneWrites(fs)[..n]) == Render(fs[..n])
  {
    var ws := OneWrites(fs);
    if n == 0 {
      assert ws[..0] == [];
      assert fs[..0] == [];
    } else {
      assert ws[..n] == [FrameText(fs[0])] + OneWrites(fs[1..])[..n - 1];
      ConcatOneWrites(fs[1..], n - 1);
      RenderPrefixStep(fs, n);
    }
  }

  /** How many planned frames reach a client whose connection takes
      `capacity` writes. */
  function Delivered(kind: RelayKind, frames: nat, capacity: nat): nat {
    if kind == EditRelay then (if capacity == 0 then 0 else Min(frames, capacity - 1))
    else Min(frames, capacity / 2)
  }

  lemma TwoView(fs: seq<SseFrame>, m: nat, d: nat, body: string)
    requires forall k | 0 <= k < |fs| :: Writable(fs[k])
    requires m <= 2 * |fs| && d == m / 2
    requires body == Concat(TwoWrites(fs)[..m])
    ensures Parse(body) == fs[..d]
  {
    ConcatTwoWrites(fs, m);
    var head := fs[..d];
    assert forall k | 0 <= k < |head| :: Writable(head[k]) by {
      forall k | 0 <= k < |head| ensures Writable(head[k]) {
        assert head[k] == fs[k];
      }
    }
    if m % 2 == 1 {
      var name := fs[d].name;
      assert Writable(fs[d]);
      assert body == Render(head) + ("event: " + name + "\n");
      ParseCutFrame(head, name);
    } else {
      assert body == Render(head) + "";
      assert body == Render(head);
      ParseRender(head);
    }
  }

  lemma ConsPrefix<T>(x: T, xs: seq<T>, m: nat)
    requires 1 <= m <= |xs| + 1
    ensures ([x] + xs)[..m] == [x] + xs[..m - 1]
  {
  }

  lemma PrefixWritable(fs: seq<SseFrame>, n: nat)
    requires AllWritable(fs) && n <= |fs|
    ensures AllWritable(fs[..n])
  {
    forall k | 0 <= k < n ensures Writable(fs[..n][k]) {
      assert fs[..n][k] == fs[k];
    }
  }

  lemma EditBody(fs: seq<SseFrame>, m: nat)
    requires 1 <= m <= |fs| + 1
    ensures Concat(([Connected] + OneWrites(fs))[..m]) == Connected + Render(fs[..m - 1])
  {
    ConsPrefix(Connected, OneWrites(fs), m);
    ConcatAppend([Connected], OneWrites(fs)[..m - 1]);
    assert Concat([Connected]) == Connected + Concat([]);
    ConcatOneWrites(fs, m - 1);
  }

  lemma EditView(fs: seq<SseFrame>, m: nat, body: string)
    requires AllWritable(fs)
    requires 1 <= m <= |fs| + 1
    requires body == Concat(([Connected] + OneWrites(fs))[..m])
    ensures Parse(body) == fs[..m - 1]
  {
    EditBody(fs, m);
    PrefixWritable(fs, m - 1);
    ParseAfterComment(fs[..m - 1]);
  }

  /** The frames a reader gets from the writes a relay made. */
  lemma {:induction false} ReadWrites(kind: RelayKind, fs: seq<SseFrame>, capacity: nat, r: Writer)
    requires forall k | 0 <= k < |fs| :: Writable(fs[k])
    requires r.writes == PlannedWrites(kind, fs)[..Min(|PlannedWrites(kind, fs)|, capacity)]
    ensures Parse(r.Body()) == fs[..Delivered(kind, |fs|, capacity)]
  {
    var pw := PlannedWrites(kind, fs);
    var m := Min(|pw|, capacity);
    if kind == EditRelay {
      if m == 0 {
        assert r.writes == [];
        assert Split("", '\n') == [""];
      } else {
        EditView(fs, m, r.Body());
      }
    } else {
      TwoView(fs, m, m / 2, r.Body());
    }
  }

  /** What a browser reads from a response that started with the relay:
      the planned frames in order, as many as the connection took — every
      one of them when it took them all. */
  lemma ClientView(kind: RelayKind, events: seq<Event>, end: StreamEnd, j: Json, capacity: nat)
    requires Compact(j)
    ensures var fs := Planned(kind, events, end, j);
      var r := Relay(kind, events, end, j, Writer([], capacity));
      && Parse(r.Body()) == fs[..Delivered(kind, |fs|, capacity)]
      && (capacity >= |PlannedWrites(kind, fs)| ==> Parse(r.Body()) == fs)
  {
    var fs := Planned(kind, events, end, j);
    var r := Relay(kind, events, end, j, Writer([], capacity));
    PlannedWritable(kind, events, end, j);
    var pw := PlannedWrites(kind, fs);
    assert Writer([], capacity).Room() == capacity;
    assert r.writes == [] + pw[..Min(|pw|, capacity)];
    assert r.writes == pw[..Min(|pw|, capacity)];
    ReadWrites(kind, fs, capacity, r);
    assert fs[..|fs|] == fs;
  }

  /* ---------------- the handlers ---------------- */

  /** The three requests as the gateway receives them. */
  datatype ApiRequest =
    | ChatApi(conversationId: string, prompt: string, references: seq<Enrich.Reference>)
    | ResumeApi(conversationId: string, content: string, references: seq<Enrich.Reference>)
    | EditApi(conversationId: string, messageId: string, prompt: string)

  /** The rpc call each of them opens. */
  datatype RpcCall =
    | ChatCall(chat: ChatCompletionsRpc.Request)
    | ResumeCall(userId: int, conversationId: string, content: string, references: seq<Enrich.Reference>)
    | EditCall(edit: EditDocumentRpc.EditRequest)

  function KindOf(req: ApiRequest): RelayKind {
    match req
    case ChatApi(_, _, _) => ChatRelay
    case ResumeApi(_, _, _) => ResumeRelay
    case EditApi(_, _, _) => EditRelay
  }

  /** The request is passed on field by field, the references one to one
      in order, with the caller's id from the token. */
  function CallOf(userId: int, req: ApiRequest): (c: RpcCall)
    ensures req.ChatApi? <==> c.ChatCall?
    ensures req.ChatApi? ==>
      && c.chat.userId == userId && c.chat.conversationId == req.conversationId
      && c.chat.prompt == req.prompt && c.chat.references == req.references
    ensures req.ResumeApi? ==> c == ResumeCall(userId, req.conversationId, req.content, req.references)
    ensures req.EditApi? ==>
      && c.EditCall? && c.edit.userId == userId && c.edit.conversationId == req.conversationId
      && c.edit.messageId == req.messageId && c.edit.prompt == req.prompt
  {
    match req
    case ChatApi(conv, prompt, refs) => ChatCall(ChatCompletionsRpc.Request(userId, conv, prompt, refs))
    case ResumeApi(conv, content, refs) => ResumeCall(userId, conv, content, refs)
    case EditApi(conv, id, prompt) => EditCall(EditDocumentRpc.EditRequest(id, conv, userId, prompt))
  }

  const PlainText := "text/plain; charset=utf-8"
  const EventStreamType := "text/event-stream"

  /** What a handler answers when its writer cannot flush. */
  const NotStreamable := "Streaming not supported"

  /** `http.Error`: the status, a plain-text content type, and the message
      on a line of its own. */
  function HttpError(status: int, message: string, call: Option<RpcCall>, w: Writer): HttpReply {
    HttpReply(status, PlainText, call, w.Write(message + "\n").0)
  }

  /** The response: its status, content type, the rpc call made (if any)
      and the body as written. */
  datatype HttpReply = HttpReply(status: int, contentType: string, call: Option<RpcCall>, body: Writer)

  function UnauthorizedText(kind: RelayKind): string {
    if kind == EditRelay then "Unauthorized" else "Unauthorized: Invalid token or user ID missing"
  }

  function OpenFailedText(kind: RelayKind, err: string): string {
    (if kind == EditRelay then "RPC error: " else "Internal server error: ") + err
  }

  /** One request to a streaming endpoint. `uid` is the caller's id from
      the token, `openError` the error of opening the rpc stream, and
      `flushable` whether the response writer can flush; then the events of
      the stream, how it ended, and how many writes the client takes. */
  function Serve(req: ApiRequest, uid: Option<int>, openError: Option<string>, flushable: bool,
                 events: seq<Event>, end: StreamEnd, j: Json, capacity: nat): (r: HttpReply)
    // no caller id: 401 and no rpc call
    ensures uid.None? <==> r.status == 401
    ensures uid.None? ==> r.call.None? && r.body.writes == Writer([], capacity).Write(UnauthorizedText(KindOf(req)) + "\n").0.writes
    ensures uid.Some? ==> r.call == Some(CallOf(uid.value, req))
    // the stream did not open: 500 with the error, and no event
    ensures uid.Some? && openError.Some? ==>
      && r.status == 500 && r.contentType == PlainText
      && r.body.writes == Writer([], capacity).Write(OpenFailedText(KindOf(req), openError.value) + "\n").0.writes
    // a writer that cannot flush: 500 "Streaming not supported", and no event
    ensures uid.Some? && openError.None? && !flushable ==>
      && r.status == 500 && r.contentType == PlainText
      && r.body.writes == Writer([], capacity).Write(NotStreamable + "\n").0.writes
    // a stream is relayed only with status 200 and as an event stream
    ensures r.contentType == EventStreamType <==> (uid.Some? && openError.None? && flushable)
    ensures r.contentType == EventStreamType ==>
      && r.status == 200
      && Accepts(Writer([], capacity), PlannedWrites(KindOf(req), Planned(KindOf(req), events, end, j)), r.body)
  {
    var w := Writer([], capacity);
    var kind := KindOf(req);
    if uid.None? then HttpError(401, UnauthorizedText(kind), None, w)
    else
      var call := CallOf(uid.value, req);
      if openError.Some? then HttpError(500, OpenFailedText(kind, openError.value), Some(call), w)
      else if !flushable then HttpError(500, NotStreamable, Some(call), w)
      else HttpReply(200, EventStreamType, Some(call), Relay(kind, events, end, j, w))
  }

  /** End to end: a caller with a token whose stream opens reads, in order,
      the frames the relay plans for the rpc events, as many as the
      connection takes. */
  lemma ServeView(req: ApiRequest, userId: int, events: seq<Event>, end: StreamEnd, j: Json, capacity: nat)
    requires Compact(j)
    ensures var fs := Planned(KindOf(req), events, end, j);
      var r := Serve(req, Some(userId), None, true, events, end, j, capacity);
      r.status == 200 && Parse(r.body.Body()) == fs[..Delivered(KindOf(req), |fs|, capacity)]
  {
    ClientView(KindOf(req), events, end, j, capacity);
  }
}
