/** The rpc `ChatResume` (logic/chatResumeLogic.go): after an interrupt,
    the user's answer is sent back upstream under the stored event id, and
    the rest of the document is streamed to the gateway. */
module ChatResumeRpc {
  import opened Wrappers
  import opened Text
  import opened Xerr
  import opened LlmTypes
  import XingChen

  /** `validateConversation`: the conversation must exist and belong to
      the user. `findFails` is a lookup error other than "not found". */
  function ValidateConversation(userId: int, conversationId: string,
                                conversations: map<string, Conversation>, findFails: bool): (r: Option<CodeError>)
    ensures r.None? <==> !findFails && conversationId in conversations && conversations[conversationId].userId == userId
    ensures findFails ==> r == Some(DbError)
    ensures !findFails && conversationId !in conversations ==> r == Some(ConversationNotFound)
    ensures r == Some(ConversationAccessDenied) <==>
      !findFails && conversationId in conversations && conversations[conversationId].userId != userId
  {
    if findFails then Some(DbError)
    else if conversationId !in conversations then Some(ConversationNotFound)
    else if conversations[conversationId].userId != userId then Some(ConversationAccessDenied)
    else None
  }

  /** The scan of `processLLMResumeStream` from line `i` on. Only empty
      lines are skipped unread; "data: " is stripped when present but not
      required; undecodable lines are skipped; a non-zero code aborts;
      interrupt frames are ordinary frames; non-empty chunks are
      accumulated and sent; a "stop" frame ends the scan. */
  function ResumeScan(body: Body, decode: Decoder, i: nat, reply: string, out: Outbox): (r: (Result<string, CodeError>, Outbox))
    requires i <= |body.lines|
    decreases |body.lines| - i
  {
    if i == |body.lines| then
      (if body.readError then Err(LlmApiError) else Ok(reply), out)
    else
      var line := body.lines[i];
      if line == "" then ResumeScan(body, decode, i + 1, reply, out)
      else
        match decode(TrimPrefix(line, XingChen.DataPrefix))
        case None => ResumeScan(body, decode, i + 1, reply, out)
        case Some(f) =>
          if f.code != 0 then (Err(LlmApiError), out)
          else if |f.choices| > 0 then
            var chunk := f.choices[0].delta.content;
            var (out', sent) := if chunk != "" then out.Send(MessageEvent(chunk)) else (out, true);
            if !sent then (Err(LlmApiCancel), out')
            else if f.choices[0].finishReason == "stop" then (Ok(reply + chunk), out')
            else ResumeScan(body, decode, i + 1, reply + chunk, out')
          else ResumeScan(body, decode, i + 1, reply, out)
  }

  /** The scan sends only non-empty message chunks, and a successful reply
      is `reply` followed by exactly the text it sent. */
  lemma {:induction false} ResumeScanShape(body: Body, decode: Decoder, i: nat, reply: string, out: Outbox)
    requires i <= |body.lines|
    ensures var (r, o) := ResumeScan(body, decode, i, reply, out);
      && o.capacity == out.capacity
      && |out.sent| <= |o.sent| && o.sent[..|out.sent|] == out.sent
      && (forall k | |out.sent| <= k < |o.sent| :: o.sent[k].MessageEvent? && o.sent[k].chunk != "")
      && (r.Ok? ==> r.value == reply + XingChen.Chunks(o.sent[|out.sent|..]))
    decreases |body.lines| - i
  {
    if i == |body.lines| {
      assert out.sent[|out.sent|..] == [];
      return;
    }
    var line := body.lines[i];
    if line == "" {
      ResumeScanShape(body, decode, i + 1, reply, out);
      return;
    }
    match decode(TrimPrefix(line, XingChen.DataPrefix))
    case None =>
      ResumeScanShape(body, decode, i + 1, reply, out);
    case Some(f) =>
      if f.code != 0 {
        assert out.sent[|out.sent|..] == [];
      } else if |f.choices| > 0 {
        ChunkStep(body, decode, i, reply, out, f);
      } else {
        ResumeScanShape(body, decode, i + 1, reply, out);
      }
  }

  /** The step of `ResumeScanShape` for a frame with a choice. */
  lemma {:induction false} ChunkStep(body: Body, decode: Decoder, i: nat, reply: string, out: Outbox, f: Frame)
    requires i < |body.lines| && body.lines[i] != ""
    requires decode(TrimPrefix(body.lines[i], XingChen.DataPrefix)) == Some(f)
    requires f.code == 0 && |f.choices| > 0
    ensures var (r, o) := ResumeScan(body, decode, i, reply, out);
      && o.capacity == out.capacity
      && |out.sent| <= |o.sent| && o.sent[..|out.sent|] == out.sent
      && (forall k | |out.sent| <= k < |o.sent| :: o.sent[k].MessageEvent? && o.sent[k].chunk != "")
      && (r.Ok? ==> r.value == reply + XingChen.Chunks(o.sent[|out.sent|..]))
    decreases |body.lines| - i, 0
  {
    var chunk := f.choices[0].delta.content;
    var (out', sent) := if chunk != "" then out.Send(MessageEvent(chunk)) else (out, true);
    var first := out'.sent[|out.sent|..];
    assert out'.sent == out.sent + first;
    if sent {
      if chunk != "" {
        assert first == [MessageEvent(chunk)];
        assert XingChen.Chunks(first) == chunk + XingChen.Chunks([]);
      } else {
        assert first == [];
      }
    }
    if sent && f.choices[0].finishReason != "stop" {
      ResumeScanShape(body, decode, i + 1, reply + chunk, out');
      var (r, o) := ResumeScan(body, decode, i + 1, reply + chunk, out');
      var rest := o.sent[|out'.sent|..];
      assert o.sent == out.sent + first + rest;
      assert o.sent[|out.sent|..] == first + rest;
      XingChen.ChunksAppend(first, rest);
      ConcatAssoc(reply, chunk, XingChen.Chunks(rest));
    }
  }

  /** On a body in which every non-empty line carries the "data: " prefix,
      the resume scan is the client's `processStreamResponse` with the
      `StreamResume` handler. */
  lemma {:induction false} ResumeScanAgree(body: Body, decode: Decoder, i: nat, reply: string, out: Outbox, kv: Kv)
    requires i <= |body.lines|
    requires forall k | i <= k < |body.lines| && body.lines[k] != "" :: HasPrefix(body.lines[k], XingChen.DataPrefix)
    ensures var t := XingChen.ProcessFrom(body, decode, XingChen.ResumeHandler, i, reply, out, kv, false);
      ResumeScan(body, decode, i, reply, out) == (t.outcome, t.out)
    decreases |body.lines| - i
  {
    if i < |body.lines| {
      var line := body.lines[i];
      if line != "" {
        match decode(TrimPrefix(line, XingChen.DataPrefix))
        case None =>
          ResumeScanAgree(body, decode, i + 1, reply, out, kv);
        case Some(f) =>
          if f.code == 0 {
            if |f.choices| > 0 {
              var chunk := f.choices[0].delta.content;
              var (out', sent) := if chunk != "" then out.Send(MessageEvent(chunk)) else (out, true);
              ResumeScanAgree(body, decode, i + 1, reply + chunk, out', kv);
            } else {
              assert reply + f.FirstDelta() == reply;
              ResumeScanAgree(body, decode, i + 1, reply, out, kv);
            }
          }
      } else {
        ResumeScanAgree(body, decode, i + 1, reply, out, kv);
      }
    }
  }

  /** Unlike the chat scan, a line without the "data: " prefix is not
      skipped: a bare frame that decodes is relayed. */
  lemma BareLineRelayed(decode: Decoder, line: string, f: Frame)
    requires line != "" && !HasPrefix(line, XingChen.DataPrefix)
    requires decode(line) == Some(f) && f.code == 0 && |f.choices| > 0 && f.choices[0].delta.content != ""
    ensures ResumeScan(Body([line], false), decode, 0, "", Outbox([], 1)).1.sent == [MessageEvent(f.choices[0].delta.content)]
    ensures XingChen.ProcessFrom(Body([line], false), decode, XingChen.ResumeHandler, 0, "", Outbox([], 1), Kv(map[]), false).out.sent == []
  {
    assert TrimPrefix(line, XingChen.DataPrefix) == line;
  }

  /** Where `ChatResume` leaves things: its error, the request sent
      upstream when it got that far, and the collaborators' state. */
  datatype Resumed = Resumed(err: Option<CodeError>, request: Option<ResumeRequest>,
                             out: Outbox, kv: Kv, messages: Messages)

  /** What the call depends on and the model does not compute. */
  datatype World = World(
    conversations: map<string, Conversation>,
    findFails: bool,
    kv: Kv,
    getFails: bool,
    delFails: bool,
    messages: Messages,
    userMessageId: string,
    userInsertFails: bool,
    assistantMessageId: string,
    assistantInsertFails: bool,
    up: Upstream,
    decode: Decoder)

  /** The answer as stored: content type "document_outline". */
  function ResumeUserMessage(messageId: string, conversationId: string, content: string): StoredMessage {
    StoredMessage(messageId, conversationId, "user", content, "document_outline", None)
  }

  /** The generated text as stored, even when empty. */
  function FinalDocument(messageId: string, conversationId: string, reply: string): StoredMessage {
    StoredMessage(messageId, conversationId, "assistant", reply, "final_document", Some("{}"))
  }

  /** `processLLMResumeStream` after the request: the scan, the save of the
      final document (whose failure is only logged) and the end event. */
  function ProcessResumeStream(up: Upstream, decode: Decoder, conversationId: string, assistantMessageId: string,
                               out: Outbox, messages: Messages, insertFails: bool): (r: (Option<CodeError>, Outbox, Messages))
    ensures !up.Response? || up.status != 200 ==> r == (Some(XingChen.DoStreamRequest(up).error), out, messages)
    ensures up.Response? && up.status == 200 ==>
      var (reply, o) := ResumeScan(up.body, decode, 0, "", out);
      && (reply.Err? ==> r == (Some(reply.error), o, messages))
      && (reply.Ok? ==>
            r.2 == messages.Insert(FinalDocument(assistantMessageId, conversationId, reply.value), insertFails).0)
      && (reply.Ok? && !insertFails ==>
            && |out.sent| <= |o.sent|
            && r.2.rows == messages.rows
                 + [FinalDocument(assistantMessageId, conversationId, XingChen.Chunks(o.sent[|out.sent|..]))])
    ensures r.0.None? ==>
      && |r.1.sent| > |out.sent|
      && r.1.sent[|r.1.sent| - 1] == EndEvent(conversationId, assistantMessageId)
  {
    match XingChen.DoStreamRequest(up)
    case Err(e) => (Some(e), out, messages)
    case Ok(body) =>
      var (reply, out') := ResumeScan(body, decode, 0, "", out);
      ResumeScanShape(body, decode, 0, "", out);
      if reply.Err? then (Some(reply.error), out', messages)
      else
        assert "" + XingChen.Chunks(out'.sent[|out.sent|..]) == XingChen.Chunks(out'.sent[|out.sent|..]);
        var (messages', _) := messages.Insert(FinalDocument(assistantMessageId, conversationId, reply.value), insertFails);
        var (out'', sent) := out'.Send(EndEvent(conversationId, assistantMessageId));
        (if sent then None else Some(LlmApiCancel), out'', messages')
  }

  /** `ChatResume`. */
  function ChatResume(userId: int, conversationId: string, content: string, w: World, out: Outbox): (r: Resumed)
    ensures ValidateConversation(userId, conversationId, w.conversations, w.findFails).Some? ==>
      r == Resumed(ValidateConversation(userId, conversationId, w.conversations, w.findFails), None, out, w.kv, w.messages)
    ensures r.request.None? ==> r.out == out && r.messages == w.messages
    ensures r.request.Some? ==>
      && ValidateConversation(userId, conversationId, w.conversations, w.findFails).None?
      && !w.getFails
      && XingChen.InterruptKey(conversationId) in w.kv.entries
      && r.request.value == ResumeRequest(w.kv.entries[XingChen.InterruptKey(conversationId)].value, "resume", content)
      && |r.messages.rows| > |w.messages.rows|
      && r.messages.rows[..|w.messages.rows| + 1]
           == w.messages.rows + [ResumeUserMessage(w.userMessageId, conversationId, content)]
      && (!w.delFails ==> XingChen.InterruptKey(conversationId) !in r.kv.entries)
  {
    var invalid := ValidateConversation(userId, conversationId, w.conversations, w.findFails);
    if invalid.Some? then Resumed(invalid, None, out, w.kv, w.messages)
    else
      var key := XingChen.InterruptKey(conversationId);
      var (eventId, ok) := w.kv.Get(key, w.getFails);
      if eventId == "" then Resumed(Some(LlmInterruptEventNotFound), None, out, w.kv, w.messages)
      else if !ok then Resumed(Some(DbError), None, out, w.kv, w.messages)
      else
        var kv' := w.kv.Del(key, w.delFails);
        var (messages, inserted) := w.messages.Insert(ResumeUserMessage(w.userMessageId, conversationId, content), w.userInsertFails);
        if !inserted then Resumed(Some(DbError), None, out, kv', w.messages)
        else
          var request := ResumeRequest(eventId, "resume", content);
          var (err, out', messages') := ProcessResumeStream(w.up, w.decode, conversationId, w.assistantMessageId,
                                                            out, messages, w.assistantInsertFails);
          assert messages'.rows[..|w.messages.rows| + 1] == messages.rows;
          Resumed(err, Some(request), out', kv', messages')
  }

  /** The token is read before anything else can fail: an empty value is
      "not found", even when the read itself failed, because that check
      comes first. */
  lemma EmptyTokenNotFound(userId: int, conversationId: string, content: string, w: World, out: Outbox)
    requires ValidateConversation(userId, conversationId, w.conversations, w.findFails).None?
    requires w.getFails || XingChen.InterruptKey(conversationId) !in w.kv.entries
      || w.kv.entries[XingChen.InterruptKey(conversationId)].value == ""
    ensures ChatResume(userId, conversationId, content, w, out) == Resumed(Some(LlmInterruptEventNotFound), None, out, w.kv, w.messages)
  {
  }

  /** The token is single use: once a resume has read it and deleted it, a
      second resume of the same conversation, with nothing stored in
      between, finds no token and fails before storing or sending
      anything. */
  lemma {:induction false} SecondResumeFails(userId: int, conversationId: string, content: string, content2: string,
                                             w: World, out: Outbox, out2: Outbox)
    requires !w.delFails
    requires ChatResume(userId, conversationId, content, w, out).request.Some?
    ensures var first := ChatResume(userId, conversationId, content, w, out);
      var w2 := w.(kv := first.kv, messages := first.messages);
      ChatResume(userId, conversationId, content2, w2, out2).err == Some(LlmInterruptEventNotFound)
  {
    var first := ChatResume(userId, conversationId, content, w, out);
    var w2 := w.(kv := first.kv, messages := first.messages);
    assert XingChen.InterruptKey(conversationId) !in w2.kv.entries;
    assert w2.kv.Get(XingChen.InterruptKey(conversationId), w2.getFails).0 == "";
  }

  /** The end event carries the generated id even when storing the final
      document failed; then nothing new follows the user's message. */
  lemma EndAfterFinalSaveFailure(body: Body, decode: Decoder, conversationId: string, assistantMessageId: string,
                                 out: Outbox, messages: Messages)
    requires var (reply, out') := ResumeScan(body, decode, 0, "", out);
      reply.Ok? && |out'.sent| < out'.capacity
    ensures var r := ProcessResumeStream(Response(200, body), decode, conversationId, assistantMessageId, out, messages, true);
      && r.0.None?
      && r.2 == messages
      && r.1.sent == ResumeScan(body, decode, 0, "", out).1.sent + [EndEvent(conversationId, assistantMessageId)]
  {
  }

  /** The final document is stored even when the model produced no text. */
  lemma EmptyReplyStillStored(body: Body, decode: Decoder, conversationId: string, assistantMessageId: string,
                              out: Outbox, messages: Messages)
    requires ResumeScan(body, decode, 0, "", out).0 == Ok("")
    ensures ProcessResumeStream(Response(200, body), decode, conversationId, assistantMessageId, out, messages, false).2.rows
         == messages.rows + [FinalDocument(assistantMessageId, conversationId, "")]
  {
  }
}
