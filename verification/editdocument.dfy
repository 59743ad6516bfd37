/** The rpc `EditDocument` turn (rpc/internal/logic/editdocumentlogic.go):
    look the document up, ask the model to rewrite it, store the user's
    hint and the answer, replace the document's content and tell the
    gateway which document changed. */
module EditDocumentRpc {
  import opened Wrappers
  import opened Text
  import opened Xerr
  import opened LlmTypes
  import Utf8
  import DocRepo
  import ChatCompletionsRpc

  /** What the handler returns instead of nil. The lookup's not-found error
      is wrapped apart from its other errors; the rest are wrapped by the
      step that failed. */
  datatype EditError =
    | DocumentNotFound
    | DocumentLookupFailed
    | StreamFailed(code: CodeError)
    | UserMessageNotSaved
    | AssistantMessageNotSaved
    | DocumentNotUpdated
    | EndNotSent

  datatype EditRequest = EditRequest(messageId: string, conversationId: string, userId: int, prompt: string)

  /** `StreamChatForEdit`, whose body is not part of this model: it is given
      the request and the gateway stream, and returns the rewritten text or
      an error together with the stream after whatever it sent. */
  type EditStream = (LlmRequest, Outbox) -> (Result<string, CodeError>, Outbox)

  /** The collaborators of one call, and how each of them behaves. */
  datatype World = World(
    store: DocRepo.Store,
    codec: DocRepo.Codec,
    getFails: bool,
    findFails: bool,
    setexFails: bool,
    flowId: string,
    edit: EditStream,
    messages: Messages,
    userMessageId: string,
    userInsertFails: bool,
    assistantMessageId: string,  // generated on entry, before the lookup
    assistantInsertFails: bool,
    updateFails: bool,
    delFails: bool)

  datatype Edited = Edited(
    err: Option<EditError>,
    request: Option<LlmRequest>,
    store: DocRepo.Store,
    messages: Messages,
    out: Outbox)

  const EditHead := "修改：请根据以下提示修改文档内容：\n\n原文：\n"
  const HintLabel := "\n\n修改提示："

  /** The model's input: the fixed instruction, the document as it is,
      then the user's hint. Given the length of either part, both can be
      read back from it; the prompt alone does not fix where the document
      ends when a part itself contains the hint label. */
  function EditPrompt(content: string, hint: string): (p: string)
    ensures |p| == |EditHead| + |content| + |HintLabel| + |hint|
    ensures HasPrefix(p, EditHead)
    ensures p[|EditHead|..|EditHead| + |content|] == content
    ensures p[|EditHead| + |content|..|p| - |hint|] == HintLabel
    ensures p[|p| - |hint|..] == hint
  {
    EditHead + content + HintLabel + hint
  }

  /** Two edits of the same document with the same hint length ask the same
      thing only when their hints are the same, and two edits with the same
      hint ask the same thing only for the same document. */
  lemma EditPromptInjective(c1: string, h1: string, c2: string, h2: string)
    requires EditPrompt(c1, h1) == EditPrompt(c2, h2)
    requires |c1| == |c2| || |h1| == |h2|
    ensures c1 == c2 && h1 == h2
  {
    var p := EditPrompt(c1, h1);
    assert |c1| + |h1| == |c2| + |h2|;
    assert c1 == p[|EditHead|..|EditHead| + |c1|];
    assert h1 == p[|p| - |h1|..];
  }

  /** Without a known length the split is ambiguous: a document that
      contains the hint label and one that does not can give one prompt. */
  lemma EditPromptAmbiguous()
    ensures EditPrompt("a" + HintLabel + "b", "c") == EditPrompt("a", "b" + HintLabel + "c")
    ensures "a" + HintLabel + "b" != "a"
  {
    assert EditHead + ("a" + HintLabel + "b") + HintLabel + "c" == EditHead + "a" + HintLabel + ("b" + HintLabel + "c");
  }

  /** The upstream request: the flow, the decimal user id and the prompt,
      streamed, with no image, chat id or history. */
  function EditLlmRequest(flowId: string, userId: int, prompt: string): (r: LlmRequest)
    ensures r.flowId == flowId && r.stream
    ensures ParseDecimal(r.uid) == Some(userId)
    ensures Utf8.Decode(r.agentUserInput) == Some(prompt)
    ensures r.img == "" && r.chatId == "" && r.history == []
  {
    DecimalRoundTrip(userId);
    Utf8.DecodeEncode(prompt);
    LlmRequest(flowId, Decimal(userId), Utf8.Encode(prompt), "", true, "", [])
  }

  /** The lookup as the handler makes it. */
  function Lookup(req: EditRequest, w: World): (Result<DocRepo.Document, DocRepo.DbErr>, DocRepo.Store) {
    DocRepo.FindDocument(w.store, w.codec, req.messageId, w.getFails, w.findFails, w.setexFails)
  }

  /** What the model streamed for the document found. */
  function Streamed(req: EditRequest, w: World, doc: DocRepo.Document, out: Outbox): (Result<string, CodeError>, Outbox) {
    w.edit(EditLlmRequest(w.flowId, req.userId, EditPrompt(doc.content, req.prompt)), out)
  }

  /** The rows a successful edit adds: the hint as plain text, then the
      answer under the id generated on entry, unless the answer is empty. */
  function EditRows(req: EditRequest, w: World, result: string): seq<StoredMessage> {
    [ChatCompletionsRpc.UserMessage(w.userMessageId, req.conversationId, req.prompt)]
      + if result == "" then [] else [StoredMessage(w.assistantMessageId, req.conversationId, "assistant", result, "text", None)]
  }

  /** Storing the turn and the new content, then the end event, after a
      stream that returned `result` and left the gateway stream at `out`. */
  function Finish(req: EditRequest, w: World, store: DocRepo.Store, result: string, request: LlmRequest, out: Outbox): (r: Edited)
    ensures r.request == Some(request)
    ensures r.err.None? <==> r.out.sent == out.sent + [DocEnd(req)]
    ensures r.err.None? ==> r.messages.rows == w.messages.rows + EditRows(req, w, result)
    ensures r.err.Some? ==> r.out == out
    ensures r.err.None? && req.messageId in store.db ==>
      req.messageId in r.store.db && r.store.db[req.messageId] == store.db[req.messageId].(content := result)
  {
    var (messages, inserted) := w.messages.Insert(ChatCompletionsRpc.UserMessage(w.userMessageId, req.conversationId, req.prompt), w.userInsertFails);
    if !inserted then Edited(Some(UserMessageNotSaved), Some(request), store, w.messages, out)
    else
      var (messages', saved) :=
        if result == "" then (messages, true)
        else messages.Insert(StoredMessage(w.assistantMessageId, req.conversationId, "assistant", result, "text", None), w.assistantInsertFails);
      if !saved then Edited(Some(AssistantMessageNotSaved), Some(request), store, messages, out)
      else
        var (updated, store') := DocRepo.UpdateDocumentContent(store, req.messageId, result, w.updateFails, w.delFails);
        if updated.Err? then Edited(Some(DocumentNotUpdated), Some(request), store, messages', out)
        else
          var (out', sent) := out.Send(DocEnd(req));
          Edited(if sent then None else Some(EndNotSent), Some(request), store', messages', out')
  }

  /** The end event names the edited document, not the new assistant
      message. */
  function DocEnd(req: EditRequest): Event {
    EndEvent(req.conversationId, req.messageId)
  }

  /** `EditDocument`. */
  function EditDocument(req: EditRequest, w: World, out: Outbox): (r: Edited)
    // a failed lookup stops everything: no request, no rows, no event
    ensures Lookup(req, w).0.Err? ==>
      && r.err == Some(if Lookup(req, w).0.error == DocRepo.NotFound then DocumentNotFound else DocumentLookupFailed)
      && r.request.None? && r.messages == w.messages && r.out == out && r.store == w.store
    // the model is asked to rewrite the document as found
    ensures Lookup(req, w).0.Ok? ==>
      r.request == Some(EditLlmRequest(w.flowId, req.userId, EditPrompt(Lookup(req, w).0.value.content, req.prompt)))
    // a failed stream stores nothing and sends nothing more
    ensures Lookup(req, w).0.Ok? && Streamed(req, w, Lookup(req, w).0.value, out).0.Err? ==>
      var s := Streamed(req, w, Lookup(req, w).0.value, out);
      r.err == Some(StreamFailed(s.0.error)) && r.messages == w.messages && r.out == s.1 && r.store == Lookup(req, w).1
    // success: both rows in order, the document holds the answer, one end event last
    ensures r.err.None? ==>
      && Lookup(req, w).0.Ok?
      && var s := Streamed(req, w, Lookup(req, w).0.value, out);
      && s.0.Ok?
      && r.messages.rows == w.messages.rows + EditRows(req, w, s.0.value)
      && r.out.sent == s.1.sent + [DocEnd(req)]
      && (req.messageId in w.store.db ==> req.messageId in r.store.db && r.store.db[req.messageId] == w.store.db[req.messageId].(content := s.0.value))
    // a failure after the stream sends no end event
    ensures Lookup(req, w).0.Ok? && Streamed(req, w, Lookup(req, w).0.value, out).0.Ok? && r.err.Some? ==>
      r.out == Streamed(req, w, Lookup(req, w).0.value, out).1
  {
    var (found, store) := Lookup(req, w);
    if found.Err? then
      Edited(Some(if found.error == DocRepo.NotFound then DocumentNotFound else DocumentLookupFailed), None, w.store, w.messages, out)
    else
      var request := EditLlmRequest(w.flowId, req.userId, EditPrompt(found.value.content, req.prompt));
      var (result, out') := w.edit(request, out);
      if result.Err? then Edited(Some(StreamFailed(result.error)), Some(request), store, w.messages, out')
      else Finish(req, w, store, result.value, request, out')
  }

  /** With a cache that reads back what it writes and holds only current
      copies, a successful edit whose invalidation succeeded is what the
      next lookup of the document sees: the old document with the model's
      answer as its content. */
  lemma {:induction false} EditIsVisible(req: EditRequest, w: World, out: Outbox, getFails: bool, setexFails: bool)
    requires DocRepo.RoundTrips(w.codec) && DocRepo.Coherent(w.store, w.codec)
    requires !w.delFails
    requires EditDocument(req, w, out).err.None?
    ensures var s := Streamed(req, w, Lookup(req, w).0.value, out);
      var next := DocRepo.FindDocument(EditDocument(req, w, out).store, w.codec, req.messageId, getFails, false, setexFails);
      && req.messageId in w.store.db
      && next.0 == Ok(w.store.db[req.messageId].(content := s.0.value))
  {
    var (found, store) := Lookup(req, w);
    DocRepo.FindCoherent(w.store, w.codec, req.messageId, w.getFails, w.findFails, w.setexFails);
    var s := Streamed(req, w, found.value, out);
    DocRepo.ReadAfterUpdate(store, w.codec, req.messageId, s.0.value, getFails, setexFails);
  }
}
