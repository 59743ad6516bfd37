/** The client for the upstream model API (llm/xingchenclient.go): one
    request, then a scan of the event stream in which a per-flow handler
    sees every frame before its text is accumulated. */
module XingChen {
  import opened Wrappers
  import opened Text
  import opened Xerr
  import opened LlmTypes

  const DataPrefix := "data: "
  const InterruptTtl := 1200

  function InterruptKey(conversationId: string): string {
    "llm:interrupt:" + conversationId
  }

  /** `doStreamRequest`: a request that cannot be built or sent is a
      cancellation; any status but 200 is an upstream error, and the body is
      then closed unread by the caller. */
  function DoStreamRequest(up: Upstream): (r: Result<Body, CodeError>)
    ensures r.Ok? <==> up.Response? && up.status == 200
    ensures r.Ok? ==> r.value == up.body
    ensures (up.RequestNotBuilt? || up.CallFailed?) ==> r == Err(LlmApiCancel)
    ensures up.Response? && up.status != 200 ==> r == Err(LlmApiError)
  {
    match up
    case RequestNotBuilt => Err(LlmApiCancel)
    case CallFailed => Err(LlmApiCancel)
    case Response(status, body) => if status != 200 then Err(LlmApiError) else Ok(body)
  }

  /** Where a stream turn leaves things. */
  datatype Turn = Turn(outcome: Result<string, CodeError>, out: Outbox, kv: Kv)

  /** `handleInterruptEvent`: the event id is stored under the
      conversation's interrupt key for 1200 s, and only then is the interrupt
      event sent. Either step failing is reported as "interrupt event not
      set". */
  function HandleInterruptEvent(conversationId: string, data: EventData, out: Outbox, kv: Kv, setexFails: bool)
    : (r: (Option<CodeError>, Outbox, Kv))
    ensures setexFails ==> r == (Some(LlmInterruptEventNotSet), out, kv)
    ensures !setexFails ==> r.2.entries == kv.entries[InterruptKey(conversationId) := KvEntry(data.eventId, InterruptTtl)]
    ensures !setexFails && |out.sent| < out.capacity ==>
      r.0 == None && r.1.sent == out.sent + [InterruptEvent(conversationId, "document_outline", data.value.content)]
    ensures !setexFails && |out.sent| >= out.capacity ==> r.0 == Some(LlmInterruptEventNotSet) && r.1 == out
  {
    var (kv', stored) := kv.Setex(InterruptKey(conversationId), data.eventId, InterruptTtl, setexFails);
    if !stored then (Some(LlmInterruptEventNotSet), out, kv)
    else
      var (out', sent) := out.Send(InterruptEvent(conversationId, "document_outline", data.value.content));
      if !sent then (Some(LlmInterruptEventNotSet), out', kv') else (None, out', kv')
  }

  /** The two handlers: `StreamChat`'s, which also handles interrupts for
      a conversation, and `StreamResume`'s, which only forwards text. */
  datatype Handler = ChatHandler(conversationId: string) | ResumeHandler

  /** A handler's verdict on one frame: stop, error, and the new state. */
  datatype Verdict = Verdict(stop: bool, err: Option<CodeError>, out: Outbox, kv: Kv)

  function Handle(h: Handler, f: Frame, out: Outbox, kv: Kv, setexFails: bool): (v: Verdict)
    ensures v.err.Some? ==> v.stop
    ensures v.out.capacity == out.capacity
    ensures |out.sent| <= |v.out.sent| && v.out.sent[..|out.sent|] == out.sent
    ensures h.ResumeHandler? ==> v.kv == kv && (v.stop <==> v.err.Some?)
  {
    if h.ChatHandler? && f.IsInterrupt() then
      var (err, out', kv') := HandleInterruptEvent(h.conversationId, f.eventData.value, out, kv, setexFails);
      Verdict(true, err, out', kv')
    else if |f.choices| > 0 && f.choices[0].delta.content != "" then
      var (out', sent) := out.Send(MessageEvent(f.choices[0].delta.content));
      if !sent then Verdict(true, Some(LlmApiCancel), out', kv) else Verdict(false, None, out', kv)
    else Verdict(false, None, out, kv)
  }

  /** The text of the message events in a run of events. */
  function Chunks(events: seq<Event>): string {
    if |events| == 0 then ""
    else (if events[0].MessageEvent? then events[0].chunk else "") + Chunks(events[1..])
  }

  lemma {:induction false} ChunksAppend(a: seq<Event>, b: seq<Event>)
    ensures Chunks(a + b) == Chunks(a) + Chunks(b)
  {
    if |a| == 0 {
      assert a + b == b;
    } else {
      ChunksAppend(a[1..], b);
      assert (a + b)[0] == a[0];
      assert (a + b)[1..] == a[1..] + b;
      ConcatAssoc(if a[0].MessageEvent? then a[0].chunk else "", Chunks(a[1..]), Chunks(b));
    }
  }

  /** What a stream may send: non-empty message chunks, possibly closed by
      one interrupt event. */
  predicate WellFormedRun(events: seq<Event>) {
    && (forall k | 0 <= k < |events| - 1 :: events[k].MessageEvent? && events[k].chunk != "")
    && (|events| > 0 ==>
          || (events[|events| - 1].MessageEvent? && events[|events| - 1].chunk != "")
          || events[|events| - 1].InterruptEvent?)
  }

  /** `out'` is `out` after sending `events`. */
  predicate SentAfter(out: Outbox, events: seq<Event>, out': Outbox) {
    out' == Outbox(out.sent + events, out.capacity)
  }

  /** The run ends with an interrupt event. */
  predicate EndsInterrupted(events: seq<Event>) {
    |events| > 0 && events[|events| - 1].InterruptEvent?
  }

  /** What a turn promises about the events it sent and its reply: the
      events form a well-formed run; a turn of the resume handler sends only
      message chunks and leaves Redis alone; a successful chat turn that
      sent an interrupt event returns "", and any other successful turn
      returns `reply` followed by exactly the text sent. */
  predicate TurnShape(h: Handler, reply: string, kv: Kv, events: seq<Event>, r: Turn) {
    && WellFormedRun(events)
    && (h.ResumeHandler? ==> r.kv == kv && forall e | e in events :: e.MessageEvent?)
    && (r.outcome.Ok? && EndsInterrupted(events) ==> r.outcome.value == "" && h.ChatHandler?)
    && (r.outcome.Ok? && !EndsInterrupted(events) ==> r.outcome.value == reply + Chunks(events))
  }

  /** `processStreamResponse` from line `i` on, with `reply` accumulated so
      far. Lines that are empty, lack the "data: " prefix or do not decode
      are skipped; a frame with a non-zero code aborts; the handler runs
      before the text is taken; the scan ends after the first "stop" frame.
      The scan only ever adds to what was sent. */
  function ProcessFrom(body: Body, decode: Decoder, h: Handler, i: nat, reply: string,
                       out: Outbox, kv: Kv, setexFails: bool): (r: Turn)
    requires i <= |body.lines|
    ensures r.out.capacity == out.capacity
    ensures |out.sent| <= |r.out.sent| && r.out.sent[..|out.sent|] == out.sent
    decreases |body.lines| - i
  {
    if i == |body.lines| then
      Turn(if body.readError then Err(LlmApiError) else Ok(reply), out, kv)
    else
      var line := body.lines[i];
      if line == "" || !HasPrefix(line, DataPrefix) then
        ProcessFrom(body, decode, h, i + 1, reply, out, kv, setexFails)
      else
        match decode(TrimPrefix(line, DataPrefix))
        case None => ProcessFrom(body, decode, h, i + 1, reply, out, kv, setexFails)
        case Some(f) =>
          if f.code != 0 then Turn(Err(LlmApiError), out, kv)
          else
            var v := Handle(h, f, out, kv, setexFails);
            if v.err.Some? then Turn(Err(v.err.value), v.out, v.kv)
            else if v.stop then Turn(Ok(""), v.out, v.kv)
            else if |f.choices| > 0 && f.choices[0].finishReason == "stop" then
              Turn(Ok(reply + f.choices[0].delta.content), v.out, v.kv)
            else
              var r := ProcessFrom(body, decode, h, i + 1, reply + f.FirstDelta(), v.out, v.kv, setexFails);
              assert r.out.sent[..|out.sent|] == r.out.sent[..|v.out.sent|][..|out.sent|];
              r
  }

  /** The frame line `i` carries: `None` for a line the scan skips
      (empty, without "data: ", or not decoding). */
  function FrameAt(body: Body, decode: Decoder, i: nat): Option<Frame>
    requires i < |body.lines|
  {
    var line := body.lines[i];
    if line == "" || !HasPrefix(line, DataPrefix) then None else decode(TrimPrefix(line, DataPrefix))
  }

  /** A frame on which the scan ends without error when the handler lets
      it: a "stop" frame, or, for the chat handler, an interrupt frame. */
  predicate Final(h: Handler, f: Frame) {
    f.code == 0 && (f.IsStop() || (h.ChatHandler? && f.IsInterrupt()))
  }

  /** A line that carries no frame is skipped: the scan goes on from the
      next line with nothing sent and nothing accumulated. */
  lemma SkipsLine(body: Body, decode: Decoder, h: Handler, i: nat, reply: string,
                  out: Outbox, kv: Kv, setexFails: bool)
    requires i < |body.lines| && FrameAt(body, decode, i).None?
    ensures ProcessFrom(body, decode, h, i, reply, out, kv, setexFails)
         == ProcessFrom(body, decode, h, i + 1, reply, out, kv, setexFails)
  {
  }

  /** A frame with a non-zero code aborts the scan with an upstream error
      before the handler sees it: nothing more is sent and Redis is not
      touched. */
  lemma AbortsOnCode(body: Body, decode: Decoder, h: Handler, i: nat, reply: string,
                     out: Outbox, kv: Kv, setexFails: bool)
    requires i < |body.lines| && FrameAt(body, decode, i).Some? && FrameAt(body, decode, i).value.code != 0
    ensures ProcessFrom(body, decode, h, i, reply, out, kv, setexFails) == Turn(Err(LlmApiError), out, kv)
  {
  }

  /** The scan ends at a "stop" frame: two bodies that agree up to and
      including that frame give the same turn, whatever follows it and
      whether or not reading then fails. */
  lemma {:induction false} StopEndsScan(b1: Body, b2: Body, decode: Decoder, h: Handler, i: nat, j: nat,
                                        reply: string, out: Outbox, kv: Kv, setexFails: bool)
    requires i <= j < |b1.lines| && j < |b2.lines| && b1.lines[..j + 1] == b2.lines[..j + 1]
    requires FrameAt(b1, decode, j).Some? && FrameAt(b1, decode, j).value.code == 0
    requires FrameAt(b1, decode, j).value.IsStop()
    ensures ProcessFrom(b1, decode, h, i, reply, out, kv, setexFails)
         == ProcessFrom(b2, decode, h, i, reply, out, kv, setexFails)
    decreases j - i
  {
    assert b1.lines[i] == b1.lines[..j + 1][i] == b2.lines[i];
    if i == j {
      SameStop(b1, b2, decode, h, i, reply, out, kv, setexFails);
    } else {
      match FrameAt(b1, decode, i)
      case None =>
        StopEndsScan(b1, b2, decode, h, i + 1, j, reply, out, kv, setexFails);
      case Some(f) =>
        if f.code == 0 {
          var v := Handle(h, f, out, kv, setexFails);
          StopEndsScan(b1, b2, decode, h, i + 1, j, reply + f.FirstDelta(), v.out, v.kv, setexFails);
        }
    }
  }

  /** Two bodies with the same "stop" frame at `i` give the same turn from
      `i` on. */
  lemma SameStop(b1: Body, b2: Body, decode: Decoder, h: Handler, i: nat,
                 reply: string, out: Outbox, kv: Kv, setexFails: bool)
    requires i < |b1.lines| && i < |b2.lines| && b1.lines[i] == b2.lines[i]
    requires FrameAt(b1, decode, i).Some? && FrameAt(b1, decode, i).value.code == 0
    requires FrameAt(b1, decode, i).value.IsStop()
    ensures ProcessFrom(b1, decode, h, i, reply, out, kv, setexFails)
         == ProcessFrom(b2, decode, h, i, reply, out, kv, setexFails)
  {
  }

  /** A scan over a body whose reading fails returns the upstream error
      unless it ended before the failure, on a final frame. */
  lemma {:induction false} ReadErrorFails(body: Body, decode: Decoder, h: Handler, i: nat, reply: string,
                                          out: Outbox, kv: Kv, setexFails: bool)
    requires i <= |body.lines|
    ensures var r := ProcessFrom(body, decode, h, i, reply, out, kv, setexFails);
      r.outcome.Ok? && body.readError ==>
        exists k | i <= k < |body.lines| :: FrameAt(body, decode, k).Some? && Final(h, FrameAt(body, decode, k).value)
    decreases |body.lines| - i
  {
    if i < |body.lines| {
      match FrameAt(body, decode, i)
      case None =>
        ReadErrorFails(body, decode, h, i + 1, reply, out, kv, setexFails);
      case Some(f) =>
        if f.code == 0 {
          var v := Handle(h, f, out, kv, setexFails);
          HandleSends(h, f, out, kv, setexFails);
          if v.err.None? && !v.stop && !f.IsStop() {
            ReadErrorFails(body, decode, h, i + 1, reply + f.FirstDelta(), v.out, v.kv, setexFails);
          } else if v.err.None? {
            assert Final(h, f);
          }
        }
    }
  }

  /** What one handler call sends: nothing, or one non-empty chunk which is
      the frame's delta, or, for the chat handler on an interrupt frame, at
      most one interrupt event. The handler stops without an error only
      after that interrupt event. */
  lemma HandleSends(h: Handler, f: Frame, out: Outbox, kv: Kv, setexFails: bool)
    ensures var v := Handle(h, f, out, kv, setexFails); var events := v.out.sent[|out.sent|..];
      && SentAfter(out, events, v.out)
      && |events| <= 1
      && (forall e | e in events :: e.MessageEvent? ==> e.chunk != "")
      && (!v.stop ==> Chunks(events) == f.FirstDelta() && forall e | e in events :: e.MessageEvent?)
      && (v.stop && v.err.None? ==> h.ChatHandler? && f.IsInterrupt() && |events| == 1 && events[0].InterruptEvent?)
      && (h.ResumeHandler? ==> v.kv == kv && forall e | e in events :: e.MessageEvent?)
  {
    var v := Handle(h, f, out, kv, setexFails);
    var events := v.out.sent[|out.sent|..];
    if h.ChatHandler? && f.IsInterrupt() {
      var e := InterruptEvent(h.conversationId, "document_outline", f.eventData.value.value.content);
      assert v.out.sent == out.sent || v.out.sent == out.sent + [e];
    } else if |f.choices| > 0 && f.choices[0].delta.content != "" {
      var e := MessageEvent(f.choices[0].delta.content);
      assert v.out.sent == out.sent || v.out.sent == out.sent + [e];
      if v.out.sent == out.sent + [e] {
        assert events == [e];
        assert Chunks(events) == e.chunk + Chunks([]);
      }
    } else {
      assert events == [];
    }
  }

  /** The events a turn sent. */
  function Sent(out: Outbox, r: Turn): seq<Event>
    requires |out.sent| <= |r.out.sent|
  {
    r.out.sent[|out.sent|..]
  }

  /** The shape of a whole turn. */
  lemma {:induction false} ProcessFromShape(body: Body, decode: Decoder, h: Handler, i: nat, reply: string,
                                            out: Outbox, kv: Kv, setexFails: bool)
    requires i <= |body.lines|
    ensures var r := ProcessFrom(body, decode, h, i, reply, out, kv, setexFails);
      SentAfter(out, Sent(out, r), r.out) && TurnShape(h, reply, kv, Sent(out, r), r)
    decreases |body.lines| - i, 1
  {
    var r := ProcessFrom(body, decode, h, i, reply, out, kv, setexFails);
    if i == |body.lines| {
      assert Sent(out, r) == [];
      assert out.sent + [] == out.sent;
      return;
    }
    var line := body.lines[i];
    if line == "" || !HasPrefix(line, DataPrefix) {
      ProcessFromShape(body, decode, h, i + 1, reply, out, kv, setexFails);
      return;
    }
    match decode(TrimPrefix(line, DataPrefix))
    case None =>
      ProcessFromShape(body, decode, h, i + 1, reply, out, kv, setexFails);
    case Some(f) =>
      if f.code != 0 {
        assert Sent(out, r) == [];
        assert out.sent + [] == out.sent;
      } else {
        FrameShape(body, decode, h, i, reply, out, kv, setexFails, f);
      }
  }

  /** The step of `ProcessFromShape` for a frame the handler sees. */
  lemma {:induction false} FrameShape(body: Body, decode: Decoder, h: Handler, i: nat, reply: string,
                                      out: Outbox, kv: Kv, setexFails: bool, f: Frame)
    requires i < |body.lines|
    requires body.lines[i] != "" && HasPrefix(body.lines[i], DataPrefix)
    requires decode(TrimPrefix(body.lines[i], DataPrefix)) == Some(f) && f.code == 0
    ensures var r := ProcessFrom(body, decode, h, i, reply, out, kv, setexFails);
      SentAfter(out, Sent(out, r), r.out) && TurnShape(h, reply, kv, Sent(out, r), r)
    decreases |body.lines| - i, 0
  {
    var v := Handle(h, f, out, kv, setexFails);
    if v.err.Some? || v.stop || f.IsStop() {
      FrameStopShape(body, decode, h, i, reply, out, kv, setexFails, f);
    } else {
      var r := ProcessFrom(body, decode, h, i, reply, out, kv, setexFails);
      var r' := ProcessFrom(body, decode, h, i + 1, reply + f.FirstDelta(), v.out, v.kv, setexFails);
      assert r == r';
      ProcessFromShape(body, decode, h, i + 1, reply + f.FirstDelta(), v.out, v.kv, setexFails);
      FrameContinueShape(h, f, reply, out, kv, setexFails, r');
    }
  }

  /** A frame on which the scan ends: the turn sent what the handler sent. */
  lemma FrameStopShape(body: Body, decode: Decoder, h: Handler, i: nat, reply: string,
                       out: Outbox, kv: Kv, setexFails: bool, f: Frame)
    requires i < |body.lines|
    requires body.lines[i] != "" && HasPrefix(body.lines[i], DataPrefix)
    requires decode(TrimPrefix(body.lines[i], DataPrefix)) == Some(f) && f.code == 0
    requires var v := Handle(h, f, out, kv, setexFails); v.err.Some? || v.stop || f.IsStop()
    ensures var r := ProcessFrom(body, decode, h, i, reply, out, kv, setexFails);
      SentAfter(out, Sent(out, r), r.out) && TurnShape(h, reply, kv, Sent(out, r), r)
  {
    var r := ProcessFrom(body, decode, h, i, reply, out, kv, setexFails);
    var v := Handle(h, f, out, kv, setexFails);
    HandleSends(h, f, out, kv, setexFails);
    assert r.out == v.out;
    if !v.stop {
      assert r.outcome == Ok(reply + f.FirstDelta());
    }
  }

  /** A frame after which the scan goes on: what the handler sent comes
      first, then what the rest of the scan sends. */
  lemma FrameContinueShape(h: Handler, f: Frame, reply: string, out: Outbox, kv: Kv, setexFails: bool, r: Turn)
    requires var v := Handle(h, f, out, kv, setexFails);
      && v.err.None? && !v.stop
      && |v.out.sent| <= |r.out.sent| && r.out.sent[..|v.out.sent|] == v.out.sent
      && SentAfter(v.out, Sent(v.out, r), r.out) && TurnShape(h, reply + f.FirstDelta(), v.kv, Sent(v.out, r), r)
    ensures |out.sent| <= |r.out.sent|
    ensures SentAfter(out, Sent(out, r), r.out) && TurnShape(h, reply, kv, Sent(out, r), r)
  {
    var v := Handle(h, f, out, kv, setexFails);
    ContinueSends(h, f, out, kv, setexFails);
    var first := v.out.sent[|out.sent|..];
    var rest := Sent(v.out, r);
    assert r.out.sent == out.sent + first + rest;
    assert Sent(out, r) == first + rest;
    ShapeAppend(h, reply, f.FirstDelta(), kv, v.kv, first, rest, r);
  }

  /** A handler call after which the scan goes on sent only the frame's
      delta, as plain chunks. */
  lemma ContinueSends(h: Handler, f: Frame, out: Outbox, kv: Kv, setexFails: bool)
    requires var v := Handle(h, f, out, kv, setexFails); v.err.None? && !v.stop
    ensures var v := Handle(h, f, out, kv, setexFails); var first := v.out.sent[|out.sent|..];
      && v.out.sent == out.sent + first
      && (forall e | e in first :: e.MessageEvent? && e.chunk != "")
      && Chunks(first) == f.FirstDelta()
      && (h.ResumeHandler? ==> v.kv == kv)
  {
    HandleSends(h, f, out, kv, setexFails);
  }

  /** A turn that went on after plain chunks `first` has the shape of the
      whole run when the rest of the run has the shape of the rest. */
  lemma ShapeAppend(h: Handler, reply: string, d: string, kv: Kv, kv': Kv, first: seq<Event>, rest: seq<Event>, r: Turn)
    requires forall e | e in first :: e.MessageEvent? && e.chunk != ""
    requires Chunks(first) == d
    requires h.ResumeHandler? ==> kv' == kv
    requires TurnShape(h, reply + d, kv', rest, r)
    ensures TurnShape(h, reply, kv, first + rest, r)
  {
    var all := first + rest;
    ChunksAppend(first, rest);
    RunAppend(first, rest);
    ConcatAssoc(reply, d, Chunks(rest));
    assert EndsInterrupted(all) <==> EndsInterrupted(rest) by {
      if |rest| == 0 {
        assert all == first;
        assert |first| > 0 ==> first[|first| - 1] in first;
      } else {
        assert all[|all| - 1] == rest[|rest| - 1];
      }
    }
    assert h.ResumeHandler? ==> forall e | e in all :: e.MessageEvent? by {
      if h.ResumeHandler? {
        forall e | e in all
          ensures e.MessageEvent?
        {
          assert e in first || e in rest;
        }
      }
    }
  }

  /** A run of plain chunks followed by a well-formed run is well formed. */
  lemma RunAppend(a: seq<Event>, b: seq<Event>)
    requires forall e | e in a :: e.MessageEvent? && e.chunk != ""
    requires WellFormedRun(b)
    ensures WellFormedRun(a + b)
  {
    var ab := a + b;
    forall k | 0 <= k < |ab| - 1
      ensures ab[k].MessageEvent? && ab[k].chunk != ""
    {
      if k < |a| {
        assert ab[k] == a[k] && a[k] in a;
      } else {
        assert ab[k] == b[k - |a|];
      }
    }
    if |b| == 0 && |a| > 0 {
      assert ab[|ab| - 1] == a[|a| - 1] && a[|a| - 1] in a;
    }
  }

  /** `StreamChat`: request, then the scan with the chat handler. A failed
      request sends nothing; otherwise the turn sends non-empty chunks,
      possibly closed by one interrupt event, and a successful reply is ""
      after an interrupt and exactly the text sent otherwise. */
  function StreamChat(up: Upstream, decode: Decoder, conversationId: string,
                      out: Outbox, kv: Kv, setexFails: bool): (r: Turn)
    ensures up.RequestNotBuilt? || up.CallFailed? ==> r == Turn(Err(LlmApiCancel), out, kv)
    ensures up.Response? && up.status != 200 ==> r == Turn(Err(LlmApiError), out, kv)
    ensures up.Response? && up.status == 200 ==>
      r == ProcessFrom(up.body, decode, ChatHandler(conversationId), 0, "", out, kv, setexFails)
    ensures |out.sent| <= |r.out.sent| && SentAfter(out, r.out.sent[|out.sent|..], r.out)
    ensures TurnShape(ChatHandler(conversationId), "", kv, r.out.sent[|out.sent|..], r)
  {
    match DoStreamRequest(up)
    case Err(e) =>
      assert out.sent[|out.sent|..] == [] && out.sent + [] == out.sent;
      Turn(Err(e), out, kv)
    case Ok(body) =>
      var r := ProcessFrom(body, decode, ChatHandler(conversationId), 0, "", out, kv, setexFails);
      ProcessFromShape(body, decode, ChatHandler(conversationId), 0, "", out, kv, setexFails);
      assert Sent(out, r) == r.out.sent[|out.sent|..];
      assert "" + Chunks(Sent(out, r)) == Chunks(Sent(out, r));
      r
  }

  /** `StreamResume`: request, then the scan with the resume handler. It
      sends only message chunks, never touches Redis, and a successful
      reply is exactly the text it sent. */
  function StreamResume(up: Upstream, decode: Decoder, out: Outbox, kv: Kv): (r: Turn)
    ensures r.kv == kv
    ensures r.out.capacity == out.capacity && |out.sent| <= |r.out.sent| && r.out.sent[..|out.sent|] == out.sent
    ensures forall e | e in r.out.sent[|out.sent|..] :: e.MessageEvent?
    ensures r.outcome.Ok? ==> r.outcome.value == Chunks(r.out.sent[|out.sent|..])
    ensures !up.Response? || up.status != 200 ==> r.outcome.Err? && r.out == out
  {
    match DoStreamRequest(up)
    case Err(e) => assert out.sent[|out.sent|..] == []; Turn(Err(e), out, kv)
    case Ok(body) =>
      var r := ProcessFrom(body, decode, ResumeHandler, 0, "", out, kv, false);
      ProcessFromShape(body, decode, ResumeHandler, 0, "", out, kv, false);
      assert Sent(out, r) == r.out.sent[|out.sent|..];
      r
  }
}
