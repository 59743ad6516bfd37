/** The rpc `ChatCompletions` (logic/chatCompletionsLogic.go): open or
    create the conversation, store the user's message, enrich the prompt
    with the referenced files, call the model and relay its stream to the
    gateway, store the reply, and close with an end event. */
module ChatCompletionsRpc {
  import opened Wrappers
  import opened Text
  import opened Xerr
  import opened LlmTypes
  import Utf8
  import Enrich
  import XingChen

  /* ---------------- conversations ---------------- */

  /** A message of a conversation's history as `GetConversationDetail`
      returns it, oldest first. */
  datatype HistoryMessage = HistoryMessage(role: string, content: string)

  const MaxTitleRunes := 15

  /** `generateTitle`: the prompt cut to 15 runes, marked with "..." when
      something was cut. */
  function GenerateTitle(prompt: string): (t: string)
    ensures |prompt| <= MaxTitleRunes ==> t == prompt
    ensures |prompt| > MaxTitleRunes ==>
      |t| == MaxTitleRunes + 3 && t[..MaxTitleRunes] == prompt[..MaxTitleRunes] && t[MaxTitleRunes..] == "..."
  {
    if |prompt| > MaxTitleRunes then prompt[..MaxTitleRunes] + "..." else prompt
  }

  /** The title is cut on a rune boundary: before the "..." its bytes are a
      prefix of the prompt's bytes that decodes to the first 15 runes, so no
      character is ever split. */
  lemma TitleRuneSafe(prompt: string)
    requires |prompt| > MaxTitleRunes
    ensures var head := Utf8.Encode(prompt[..MaxTitleRunes]);
      && |head| <= |Utf8.Encode(prompt)|
      && Utf8.Encode(prompt)[..|head|] == head
      && Utf8.Decode(head) == Some(prompt[..MaxTitleRunes])
      && Utf8.Encode(GenerateTitle(prompt)) == head + Utf8.Encode("...")
  {
    var cut := prompt[..MaxTitleRunes];
    assert prompt == cut + prompt[MaxTitleRunes..];
    Utf8.EncodeAppend(cut, prompt[MaxTitleRunes..]);
    Utf8.EncodeAppend(cut, "...");
    Utf8.DecodeEncode(cut);
  }

  /** What `getOrCreateConversation` leaves: the conversation id and its
      history, or the error; and the conversations table. */
  datatype Opened = Opened(outcome: Result<(string, seq<HistoryMessage>), CodeError>,
                           conversations: map<string, Conversation>)

  /** `getOrCreateConversation`. An empty id creates a conversation under
      the fresh id `newId`, titled from the prompt, with an empty history.
      Otherwise the conversation must be found (`findFails`: the lookup
      errs) and belong to the user, and its history comes from
      `GetConversationDetail` (`detail`, `None` when that call fails). */
  function GetOrCreateConversation(userId: int, conversationId: string, prompt: string, newId: string,
                                   conversations: map<string, Conversation>, insertFails: bool,
                                   findFails: bool, detail: Option<seq<HistoryMessage>>): (r: Opened)
    ensures conversationId == "" && insertFails ==> r == Opened(Err(DbError), conversations)
    ensures conversationId == "" && !insertFails ==>
      && r.outcome == Ok((newId, []))
      && r.conversations == conversations[newId := Conversation(newId, userId, GenerateTitle(prompt))]
    ensures conversationId != "" ==> r.conversations == conversations
    ensures conversationId != "" && (findFails || conversationId !in conversations) ==>
      r.outcome == Err(ConversationNotFound)
    ensures r.outcome == Err(ConversationAccessDenied) <==>
      && conversationId != "" && !findFails && conversationId in conversations
      && conversations[conversationId].userId != userId
    ensures r.outcome == Err(MessageNotFound) <==>
      && conversationId != "" && !findFails && conversationId in conversations
      && conversations[conversationId].userId == userId && detail.None?
    ensures r.outcome.Ok? ==>
      && r.outcome.value.0 in r.conversations
      && r.conversations[r.outcome.value.0].userId == userId
    ensures conversationId != "" && r.outcome.Ok? ==> r.outcome.value == (conversationId, detail.value)
  {
    if conversationId == "" then
      if insertFails then Opened(Err(DbError), conversations)
      else Opened(Ok((newId, [])), conversations[newId := Conversation(newId, userId, GenerateTitle(prompt))])
    else if findFails || conversationId !in conversations then Opened(Err(ConversationNotFound), conversations)
    else if conversations[conversationId].userId != userId then Opened(Err(ConversationAccessDenied), conversations)
    else if detail.None? then Opened(Err(MessageNotFound), conversations)
    else Opened(Ok((conversationId, detail.value)), conversations)
  }

  /** `saveUserMessage`: the prompt as the user typed it, as plain text
      without metadata. */
  function UserMessage(messageId: string, conversationId: string, prompt: string): StoredMessage {
    StoredMessage(messageId, conversationId, "user", prompt, "text", None)
  }

  /* ---------------- the upstream request ---------------- */

  const MaxHistory := 10

  /** The length of the history window: the last ten messages at most. */
  function WindowLength(n: nat): nat {
    if n > MaxHistory then MaxHistory else n
  }

  /** `buildLLMRequest`: the last ten history messages at most, in their
      order, each as plain text; the user id as a decimal numeral; streaming
      on; the conversation as chat id. */
  method BuildLlmRequest(flowId: string, userId: int, conversationId: string, prompt: seq<Utf8.byte>,
                         history: seq<HistoryMessage>, img: string) returns (r: LlmRequest)
    ensures |r.history| == WindowLength(|history|)
    ensures forall k | 0 <= k < |r.history| ::
      var m := history[|history| - |r.history| + k];
      r.history[k] == LlmMessage(m.role, "text", m.content)
    ensures r.flowId == flowId && r.stream && r.chatId == conversationId
    ensures r.agentUserInput == prompt && r.img == img
    ensures ParseDecimal(r.uid) == Some(userId)
  {
    var start := 0;
    if |history| > MaxHistory {
      start := |history| - MaxHistory;
    }
    var apiHistory: seq<LlmMessage> := [];
    var i := start;
    while i < |history|
      invariant start <= i <= |history|
      invariant |apiHistory| == i - start
      invariant forall k | 0 <= k < |apiHistory| ::
        apiHistory[k] == LlmMessage(history[start + k].role, "text", history[start + k].content)
    {
      apiHistory := apiHistory + [LlmMessage(history[i].role, "text", history[i].content)];
      i := i + 1;
    }
    DecimalRoundTrip(userId);
    r := LlmRequest(flowId, Decimal(userId), prompt, img, true, conversationId, apiHistory);
  }

  /* ---------------- the stream ---------------- */

  /** `handleStreamEvents` from line `i` on: the service's own copy of the
      scan. Lines that are empty, lack "data: " or do not decode are
      skipped; a non-zero code aborts; an interrupt frame is handed to
      `handleInterruptEvent` and ends the scan with ""; a non-empty chunk is
      accumulated and sent; a "stop" frame ends the scan. */
  function HandleStreamEvents(body: Body, decode: Decoder, conversationId: string, i: nat, reply: string,
                              out: Outbox, kv: Kv, setexFails: bool): (r: XingChen.Turn)
    requires i <= |body.lines|
    ensures r.out.capacity == out.capacity
    ensures |out.sent| <= |r.out.sent| && r.out.sent[..|out.sent|] == out.sent
    decreases |body.lines| - i
  {
    if i == |body.lines| then
      XingChen.Turn(if body.readError then Err(LlmApiError) else Ok(reply), out, kv)
    else
      var line := body.lines[i];
      if line == "" || !HasPrefix(line, XingChen.DataPrefix) then
        HandleStreamEvents(body, decode, conversationId, i + 1, reply, out, kv, setexFails)
      else
        match decode(TrimPrefix(line, XingChen.DataPrefix))
        case None => HandleStreamEvents(body, decode, conversationId, i + 1, reply, out, kv, setexFails)
        case Some(f) =>
          if f.code != 0 then XingChen.Turn(Err(LlmApiError), out, kv)
          else if f.IsInterrupt() then
            var (err, out', kv') := XingChen.HandleInterruptEvent(conversationId, f.eventData.value, out, kv, setexFails);
            if err.Some? then XingChen.Turn(Err(err.value), out', kv') else XingChen.Turn(Ok(""), out', kv')
          else if |f.choices| > 0 then
            var chunk := f.choices[0].delta.content;
            var (out', sent) := if chunk != "" then out.Send(MessageEvent(chunk)) else (out, true);
            if !sent then XingChen.Turn(Err(LlmApiCancel), out', kv)
            else if f.choices[0].finishReason == "stop" then XingChen.Turn(Ok(reply + chunk), out', kv)
            else
              var r := HandleStreamEvents(body, decode, conversationId, i + 1, reply + chunk, out', kv, setexFails);
              assert r.out.sent[..|out.sent|] == r.out.sent[..|out'.sent|][..|out.sent|];
              r
          else HandleStreamEvents(body, decode, conversationId, i + 1, reply, out, kv, setexFails)
  }

  /** The service's scan does what the client's `processStreamResponse`
      does with the `StreamChat` handler, line for line, so every property
      proved of the one holds of the other. */
  lemma {:induction false} HandleStreamEventsAgree(body: Body, decode: Decoder, conversationId: string, i: nat,
                                                   reply: string, out: Outbox, kv: Kv, setexFails: bool)
    requires i <= |body.lines|
    ensures HandleStreamEvents(body, decode, conversationId, i, reply, out, kv, setexFails)
         == XingChen.ProcessFrom(body, decode, XingChen.ChatHandler(conversationId), i, reply, out, kv, setexFails)
    decreases |body.lines| - i
  {
    if i < |body.lines| {
      var line := body.lines[i];
      if line == "" || !HasPrefix(line, XingChen.DataPrefix) {
        HandleStreamEventsAgree(body, decode, conversationId, i + 1, reply, out, kv, setexFails);
      } else {
        match decode(TrimPrefix(line, XingChen.DataPrefix))
        case None =>
          HandleStreamEventsAgree(body, decode, conversationId, i + 1, reply, out, kv, setexFails);
        case Some(f) =>
          if f.code == 0 && !f.IsInterrupt() {
            if |f.choices| > 0 {
              var chunk := f.choices[0].delta.content;
              var (out', sent) := if chunk != "" then out.Send(MessageEvent(chunk)) else (out, true);
              HandleStreamEventsAgree(body, decode, conversationId, i + 1, reply + chunk, out', kv, setexFails);
            } else {
              assert reply + f.FirstDelta() == reply;
              HandleStreamEventsAgree(body, decode, conversationId, i + 1, reply, out, kv, setexFails);
            }
          }
      }
    }
  }

  /** The service's scan skips a line that carries no frame. */
  lemma StreamSkipsLine(body: Body, decode: Decoder, conversationId: string, i: nat, reply: string,
                        out: Outbox, kv: Kv, setexFails: bool)
    requires i < |body.lines| && XingChen.FrameAt(body, decode, i).None?
    ensures HandleStreamEvents(body, decode, conversationId, i, reply, out, kv, setexFails)
         == HandleStreamEvents(body, decode, conversationId, i + 1, reply, out, kv, setexFails)
  {
    HandleStreamEventsAgree(body, decode, conversationId, i, reply, out, kv, setexFails);
    HandleStreamEventsAgree(body, decode, conversationId, i + 1, reply, out, kv, setexFails);
    XingChen.SkipsLine(body, decode, XingChen.ChatHandler(conversationId), i, reply, out, kv, setexFails);
  }

  /** The service's scan aborts on a frame with a non-zero code, sending
      nothing more and leaving Redis alone. */
  lemma StreamAbortsOnCode(body: Body, decode: Decoder, conversationId: string, i: nat, reply: string,
                           out: Outbox, kv: Kv, setexFails: bool)
    requires i < |body.lines| && XingChen.FrameAt(body, decode, i).Some?
    requires XingChen.FrameAt(body, decode, i).value.code != 0
    ensures HandleStreamEvents(body, decode, conversationId, i, reply, out, kv, setexFails)
         == XingChen.Turn(Err(LlmApiError), out, kv)
  {
    HandleStreamEventsAgree(body, decode, conversationId, i, reply, out, kv, setexFails);
    XingChen.AbortsOnCode(body, decode, XingChen.ChatHandler(conversationId), i, reply, out, kv, setexFails);
  }

  /** The service's scan ends at a "stop" frame: what follows it, and a
      read failure after it, change nothing. */
  lemma StreamStopEndsScan(b1: Body, b2: Body, decode: Decoder, conversationId: string, j: nat,
                           out: Outbox, kv: Kv, setexFails: bool)
    requires j < |b1.lines| && j < |b2.lines| && b1.lines[..j + 1] == b2.lines[..j + 1]
    requires XingChen.FrameAt(b1, decode, j).Some? && XingChen.FrameAt(b1, decode, j).value.code == 0
    requires XingChen.FrameAt(b1, decode, j).value.IsStop()
    ensures HandleStreamEvents(b1, decode, conversationId, 0, "", out, kv, setexFails)
         == HandleStreamEvents(b2, decode, conversationId, 0, "", out, kv, setexFails)
  {
    HandleStreamEventsAgree(b1, decode, conversationId, 0, "", out, kv, setexFails);
    HandleStreamEventsAgree(b2, decode, conversationId, 0, "", out, kv, setexFails);
    XingChen.StopEndsScan(b1, b2, decode, XingChen.ChatHandler(conversationId), 0, j, "", out, kv, setexFails);
  }

  /** The service's scan over a body whose reading fails returns the
      upstream error unless it ended first on a "stop" or interrupt frame. */
  lemma StreamReadErrorFails(body: Body, decode: Decoder, conversationId: string, out: Outbox, kv: Kv, setexFails: bool)
    ensures var t := HandleStreamEvents(body, decode, conversationId, 0, "", out, kv, setexFails);
      t.outcome.Ok? && body.readError ==>
        exists k | 0 <= k < |body.lines| :: XingChen.FrameAt(body, decode, k).Some?
          && XingChen.Final(XingChen.ChatHandler(conversationId), XingChen.FrameAt(body, decode, k).value)
  {
    HandleStreamEventsAgree(body, decode, conversationId, 0, "", out, kv, setexFails);
    XingChen.ReadErrorFails(body, decode, XingChen.ChatHandler(conversationId), 0, "", out, kv, setexFails);
  }

  /** The events the scan sent and what it returned: non-empty chunks,
      possibly closed by one interrupt event; after an interrupt the reply
      is "", otherwise it is exactly the text of the chunks sent. */
  lemma StreamTurnShape(body: Body, decode: Decoder, conversationId: string, out: Outbox, kv: Kv, setexFails: bool)
    ensures var t := HandleStreamEvents(body, decode, conversationId, 0, "", out, kv, setexFails);
      var events := t.out.sent[|out.sent|..];
      && t.out.sent == out.sent + events
      && XingChen.WellFormedRun(events)
      && (t.outcome.Ok? && XingChen.EndsInterrupted(events) ==> t.outcome.value == "")
      && (t.outcome.Ok? && !XingChen.EndsInterrupted(events) ==> t.outcome.value == XingChen.Chunks(events))
  {
    HandleStreamEventsAgree(body, decode, conversationId, 0, "", out, kv, setexFails);
    XingChen.ProcessFromShape(body, decode, XingChen.ChatHandler(conversationId), 0, "", out, kv, setexFails);
    var t := HandleStreamEvents(body, decode, conversationId, 0, "", out, kv, setexFails);
    assert XingChen.Sent(out, t) == t.out.sent[|out.sent|..];
    assert "" + XingChen.Chunks(XingChen.Sent(out, t)) == XingChen.Chunks(XingChen.Sent(out, t));
  }

  /* ---------------- after the stream ---------------- */

  /** The metadata column of the assistant's message: the references' JSON,
      NULL when it is empty or "null" (no references). */
  function Metadata(refsJson: string): (m: Option<string>)
    ensures m.Some? <==> refsJson != "" && refsJson != "null"
    ensures m.Some? ==> m.value == refsJson
  {
    if |refsJson| > 0 && refsJson != "null" then Some(refsJson) else None
  }

  /** What `saveAssistantMessage` leaves: the new message id or the error,
      and the messages table. */
  datatype Saved = Saved(outcome: Result<string, CodeError>, messages: Messages)

  /** `saveAssistantMessage`. `refsJson` is `json.Marshal` of the request's
      references, `None` when that fails; `messageId` is the fresh ULID. */
  function SaveAssistantMessage(conversationId: string, reply: string, refsJson: Option<string>,
                                messageId: string, messages: Messages, insertFails: bool): (r: Saved)
    requires messageId != ""
    ensures reply == "" ==> r == Saved(Ok(""), messages)
    ensures reply != "" && refsJson.None? ==> r == Saved(Err(RequestParam), messages)
    ensures reply != "" && refsJson.Some? && insertFails ==> r == Saved(Err(DbError), messages)
    ensures r.outcome.Err? ==> r.messages == messages
    ensures r.outcome == Ok("") <==> reply == ""
    ensures r.outcome.Ok? && reply != "" ==>
      && r.outcome.value == messageId
      && r.messages.rows == messages.rows
           + [StoredMessage(messageId, conversationId, "assistant", reply, "document_outline", Metadata(refsJson.value))]
  {
    if reply == "" then Saved(Ok(""), messages)
    else if refsJson.None? then Saved(Err(RequestParam), messages)
    else
      var m := StoredMessage(messageId, conversationId, "assistant", reply, "document_outline", Metadata(refsJson.value));
      var (messages', inserted) := messages.Insert(m, insertFails);
      if !inserted then Saved(Err(DbError), messages) else Saved(Ok(messageId), messages')
  }

  /** Where `processLLMStream` leaves things: its error (`None` for nil),
      the stream to the gateway, Redis and the messages table. */
  datatype Finished = Finished(err: Option<CodeError>, out: Outbox, kv: Kv, messages: Messages)

  /** The message id the end event carries: the saved id, or "" when the
      save failed. */
  function SavedId(s: Saved): string {
    if s.outcome.Ok? then s.outcome.value else ""
  }

  /** `processLLMStream`: the upstream call, the scan, the save of the
      reply (whose failure is only logged), and the end event. */
  function ProcessLlmStream(up: Upstream, decode: Decoder, conversationId: string, refsJson: Option<string>,
                            messageId: string, out: Outbox, kv: Kv, setexFails: bool,
                            messages: Messages, insertFails: bool): (r: Finished)
    requires messageId != ""
    ensures r.out.capacity == out.capacity
    ensures |out.sent| <= |r.out.sent| && r.out.sent[..|out.sent|] == out.sent
    ensures |messages.rows| <= |r.messages.rows| <= |messages.rows| + 1
    ensures r.messages.rows[..|messages.rows|] == messages.rows
    ensures !up.Response? || up.status != 200 ==>
      r == Finished(Some(XingChen.DoStreamRequest(up).error), out, kv, messages)
    ensures up.Response? && up.status == 200 ==>
      var t := HandleStreamEvents(up.body, decode, conversationId, 0, "", out, kv, setexFails);
      && (t.outcome.Err? ==> r == Finished(Some(t.outcome.error), t.out, t.kv, messages))
      && (t.outcome.Ok? ==>
            r.messages == SaveAssistantMessage(conversationId, t.outcome.value, refsJson, messageId,
                                               messages, insertFails).messages)
    ensures r.err.None? ==>
      && up.Response? && up.status == 200
      && |r.out.sent| > |out.sent|
      && r.out.sent[|r.out.sent| - 1].EndEvent?
      && r.out.sent[|r.out.sent| - 1].conversationId == conversationId
      && r.out.sent[|r.out.sent| - 1].messageId in {"", messageId}
      && (r.out.sent[|r.out.sent| - 1].messageId == messageId <==> |r.messages.rows| > |messages.rows|)
  {
    match XingChen.DoStreamRequest(up)
    case Err(e) => Finished(Some(e), out, kv, messages)
    case Ok(body) =>
      var t := HandleStreamEvents(body, decode, conversationId, 0, "", out, kv, setexFails);
      if t.outcome.Err? then Finished(Some(t.outcome.error), t.out, t.kv, messages)
      else
        var saved := SaveAssistantMessage(conversationId, t.outcome.value, refsJson, messageId, messages, insertFails);
        var (out', sent) := t.out.Send(EndEvent(conversationId, SavedId(saved)));
        assert out'.sent[..|out.sent|] == t.out.sent[..|out.sent|];
        Finished(if sent then None else Some(LlmApiCancel), out', t.kv, saved.messages)
  }

  /** After a scan that ended without error the end event is sent, even
      when saving the reply failed: it then carries "" as message id and
      nothing was stored. */
  lemma EndAfterSaveFailure(body: Body, decode: Decoder, conversationId: string, refsJson: Option<string>,
                            messageId: string, out: Outbox, kv: Kv, setexFails: bool, messages: Messages)
    requires messageId != ""
    requires var t := HandleStreamEvents(body, decode, conversationId, 0, "", out, kv, setexFails);
      t.outcome.Ok? && |t.out.sent| < t.out.capacity
    ensures var t := HandleStreamEvents(body, decode, conversationId, 0, "", out, kv, setexFails);
      var r := ProcessLlmStream(Response(200, body), decode, conversationId, refsJson, messageId,
                                out, kv, setexFails, messages, true);
      && r.err.None?
      && r.messages == messages
      && r.out.sent == t.out.sent + [EndEvent(conversationId, "")]
  {
  }

  /** An interrupted turn: the scan sent the interrupt event and returned
      "", so nothing is saved and the end event with an empty message id
      follows the interrupt event directly. */
  lemma InterruptThenEnd(body: Body, decode: Decoder, conversationId: string, refsJson: Option<string>,
                         messageId: string, out: Outbox, kv: Kv, setexFails: bool,
                         messages: Messages, insertFails: bool)
    requires messageId != ""
    requires var t := HandleStreamEvents(body, decode, conversationId, 0, "", out, kv, setexFails);
      && t.outcome.Ok? && |t.out.sent| < t.out.capacity
      && XingChen.EndsInterrupted(t.out.sent[|out.sent|..])
    ensures var r := ProcessLlmStream(Response(200, body), decode, conversationId, refsJson, messageId,
                                      out, kv, setexFails, messages, insertFails);
      && r.err.None?
      && r.messages == messages
      && |r.out.sent| >= |out.sent| + 2
      && r.out.sent[|r.out.sent| - 2].InterruptEvent?
      && r.out.sent[|r.out.sent| - 1] == EndEvent(conversationId, "")
  {
    StreamTurnShape(body, decode, conversationId, out, kv, setexFails);
    var t := HandleStreamEvents(body, decode, conversationId, 0, "", out, kv, setexFails);
    var events := t.out.sent[|out.sent|..];
    assert t.out.sent[|t.out.sent| - 1] == events[|events| - 1];
  }

  /* ---------------- the whole call ---------------- */

  /** The call as the gateway makes it. */
  datatype Request = Request(userId: int, conversationId: string, prompt: string,
                             references: seq<Enrich.Reference>)

  /** What the call depends on and the model does not compute: fresh ids,
      the tables and whether writing to them fails, the conversation
      history, the file collaborators, the upstream response and Redis. */
  datatype World = World(
    newConversationId: string,
    userMessageId: string,
    assistantMessageId: string,
    conversations: map<string, Conversation>,
    conversationInsertFails: bool,
    conversationFindFails: bool,
    detail: Option<seq<HistoryMessage>>,
    messages: Messages,
    userInsertFails: bool,
    assistantInsertFails: bool,
    readers: Enrich.Readers,
    flowId: string,
    refsJson: Option<string>,
    up: Upstream,
    decode: Decoder,
    kv: Kv,
    setexFails: bool)

  /** Where the call leaves things, with the request it sent upstream when
      it got that far. */
  datatype Completion = Completion(err: Option<CodeError>, request: Option<LlmRequest>,
                                   conversations: map<string, Conversation>, messages: Messages,
                                   out: Outbox, kv: Kv)

  /** The prompt and image the enrichment loop produces. */
  function Enriched(req: Request, readers: Enrich.Readers): Enrich.Enriched {
    Enrich.EnrichAll(req.references, readers, Enrich.Enriched(Utf8.Encode(req.prompt), "", false))
  }

  /** `ChatCompletions`. Nothing is sent and no message is stored unless
      the conversation opens; the stored user message is the prompt as
      typed, while the model receives the enriched prompt; the request
      carries the last image that uploaded. */
  method ChatCompletions(req: Request, w: World, out: Outbox) returns (c: Completion)
    requires w.assistantMessageId != ""
    ensures var o := GetOrCreateConversation(req.userId, req.conversationId, req.prompt, w.newConversationId,
                                             w.conversations, w.conversationInsertFails,
                                             w.conversationFindFails, w.detail);
      && c.conversations == o.conversations
      && (o.outcome.Err? ==> c == Completion(Some(o.outcome.error), None, o.conversations, w.messages, out, w.kv))
      && (o.outcome.Ok? && w.userInsertFails ==>
            c == Completion(Some(DbError), None, o.conversations, w.messages, out, w.kv))
      && (o.outcome.Ok? && !w.userInsertFails ==>
            var conv := o.outcome.value.0;
            var e := Enriched(req, w.readers);
            && c.request.Some?
            && |c.messages.rows| > |w.messages.rows|
            && c.messages.rows[..|w.messages.rows| + 1]
                 == w.messages.rows + [UserMessage(w.userMessageId, conv, req.prompt)]
            && c.request.value.agentUserInput == e.prompt
            && c.request.value.img == e.img
            && c.request.value.chatId == conv
            && |c.request.value.history| == WindowLength(|o.outcome.value.1|))
    ensures c.request.None? ==> c.out == out && c.messages == w.messages
    ensures c.out.capacity == out.capacity
    ensures |out.sent| <= |c.out.sent| && c.out.sent[..|out.sent|] == out.sent
  {
    var o := GetOrCreateConversation(req.userId, req.conversationId, req.prompt, w.newConversationId,
                                     w.conversations, w.conversationInsertFails,
                                     w.conversationFindFails, w.detail);
    if o.outcome.Err? {
      return Completion(Some(o.outcome.error), None, o.conversations, w.messages, out, w.kv);
    }
    var (conv, history) := o.outcome.value;
    var (messages, inserted) := w.messages.Insert(UserMessage(w.userMessageId, conv, req.prompt), w.userInsertFails);
    if !inserted {
      return Completion(Some(DbError), None, o.conversations, w.messages, out, w.kv);
    }
    var e := Enriched(req, w.readers);
    var llmReq := BuildLlmRequest(w.flowId, req.userId, conv, e.prompt, history, e.img);
    var f := ProcessLlmStream(w.up, w.decode, conv, w.refsJson, w.assistantMessageId,
                              out, w.kv, w.setexFails, messages, w.assistantInsertFails);
    assert f.messages.rows[..|w.messages.rows| + 1] == f.messages.rows[..|messages.rows|][..|w.messages.rows| + 1];
    c := Completion(f.err, Some(llmReq), o.conversations, f.messages, f.out, f.kv);
  }
}
