# document_agent core, modelled in Dafny

This project models the request and stream handling at the heart of the
`llmcenter` service, plus the small helpers around it. The model is
functional throughout:

- upstream bodies are sequences of lines;
- the Redis and MySQL stores are maps and sequences;
- gRPC and HTTP streams are sequences with an explicit failure point;
- JSON decoding, HMAC, MD5, ULID, uuid, MIME lookup and the file readers are
  parameters (uninterpreted functions).

## What is modelled

**Streaming turns.**
- `XingChen` models the XingChen client:
  - the status check of `doStreamRequest`;
  - the line loop of `processStreamResponse`, as a fold over the body;
  - the two handlers of `StreamChat` and `StreamResume`;
  - `handleInterruptEvent`, which writes `llm:interrupt:<conversation>` for
    1200 s before it sends the interrupt event.
- `LlmTypes` holds the shared records: frames, events, the outbox with a
  capacity (a send fails once the caller has gone), the key-value store and
  the message table.
- `ChatCompletionsRpc`, `Enrich`, `ChatResumeRpc` and `EditDocumentRpc` model
  the three rpc turns built on that fold:
  - conversation lookup or creation, the title, the 10-message history window
    and reference enrichment;
  - saving the reply, and the end event that follows even a failed save;
  - the single-use interrupt token and the resume body;
  - the document edit's ordering of lookup, prompt, inserts, update and end
    event.

**Relays to the browser.**
- `SseRelay` models the three api relays: `ChatCompletions`, `ChatResume` and
  `EditDocument`.
- `EventStream` is an independent reference reader for the event-stream
  format of section 9.2.5 of the WHATWG HTML Living Standard. The relay lemmas
  say what a client reading the response body receives.

**Documents.**
- `Markdown` models `convertmarkdownlogic.go`:
  - the type check and CRLF normalisation;
  - the line-driven block parser and the leftmost-first inline tokenizer;
  - `latin1BytesFromRunes` and `RepairChinese`;
  - the WordprocessingML body builder (ECMA-376 Part 1, section 17.3.2; run
    sizes in half-points);
  - the sorted order of the archive entries.
- `FileProcessor` models `cleanPdfText` of the file-processor package.
- `RpcPdfText` models the rpc's own `cleanPdfText` and `isNewParagraph`.
- `DocRepo` is the cache-aside document repository.
- `History` maps stored message metadata to file references.

**Files and links.**
- `FilePath` is a lexical model of Go's `path/filepath` `Clean`, `Join`,
  `Rel`, `Base` and `Ext` on slash-separated paths.
- `GetFileApi` is the `GetFile` download handler.
- `UrlCodec` covers query and path escaping and unpadded base64url (RFC 4648,
  section 5).
- `DownloadLinks` covers minting a signed link in `ConvertMarkdownLink` and
  checking it in `PublicDownload`. The signature is HMAC-SHA256 (RFC 2104),
  taken as a parameter.
- `DownloadFileApi` is the api `DownloadFile`.
- `Upload` covers the chunked upload: the api client side and the rpc server
  side.
- `FileCleaner` covers both `CleanOnce` cleaners and the integer part of
  `byteCountIEC`.

**Usercenter and shared packages.**
- `Users` covers usercenter `Register` and `Login`.
- `Xerr` is the error-code table.
- `Krand` is `RandomString`.
- `Text`, `Utf8` and `Wrappers` are shared helpers: Go's `strings` functions,
  UTF-8 encoding, `Option` and `Result`.

### Behaviour of the code that the model keeps

The model follows the code where it departs from what its comments or the
surrounding design suggest.

- `getFile` refuses any path whose name begins with `..`, such as `..config`,
  not only paths that climb out of the base directory (`GetFileApi.DotDotNameRefused`).
- `PublicDownload`'s name check accepts `.` and `..` (`DownloadLinks.NameCheck`).
  Joined under the upload directory, they name the directory or its parent.
- `ConvertMarkdownLink` signs with `Download.SignKey`, but `PublicDownload`
  checks with `PublicDownload.SignKey`. The mint-then-download lemma assumes
  the two are configured equal.
- `Register` never copies a supplied nickname, so such a user's nickname is
  stored as `""`.
- When reading the inserted id fails, the row stays inserted but `Register`
  reports a database error.
- The rpc `ChatResume` posts to `XingChen.ApiURL`, while the client's own
  `StreamResume` posts to `ApiResumeURL`.
- The case-insensitive extension pattern also matches U+017F (long s). A name
  like `b.cſv` then counts as a document, reaches the `default` branch of the
  type switch, and inherits whatever error an earlier reference left behind
  (`Enrich.UnsupportedInheritsError`).
- Ordered-list item text is cut at the first `". "` anywhere on the line
  (`Markdown.OrderedItemAfterTab`).
- `isNewParagraph` inspects one byte, so a Chinese first character never
  starts a paragraph (`RpcPdfText.IsNewParagraphIff`).
- A failed cache delete after a document update leaves the old content
  readable until the entry expires (`DocRepo.StaleAfterFailedInvalidation`).
- The chat relay never writes an `error` frame, and the edit relay ignores
  write errors on message frames.
- The api upload client stops at a zero-byte read, as it would at end of file.
- The walk callback of both cleaners never returns an error, so the error
  return of `CleanOnce` is unreachable. The model returns only the report.

## Model

| member | source | states |
|---|---|---|
| Xerr.MapErrMsg | pkg/xerr/errMsg.go:5-31 | 200 gives "SUCCESS"; the code of a common or user error gives that error's own text; the code of any other error, or a code no error has, gives the generic server message |
| Xerr.IsCodeErr | pkg/xerr/errMsg.go:5-39 | holds for 200 and for the code of an error exactly when that error is a common or user error; fails for a code no error has |
| Xerr.TableAgreesWithErrors | pkg/xerr/errMsg.go:5-23 | a code is registered iff its error is one of the common or user errors, and then it maps to that error's own text; file, JWT and conversation codes fall back to the generic message |
| Xerr.UnregisteredIsDefault | pkg/xerr/errMsg.go:8-31 | every code IsCodeErr rejects maps to the generic message, and 200 is registered as "SUCCESS" |
| Xerr.CodesDistinct | pkg/xerr/errCode.go:4-29 | no two errors share a code |
| Krand.RandomString | pkg/tool/krand.go:16-30 | length <= 0 gives the empty string; otherwise exactly `length` bytes, each drawn from the charset; a positive length with an empty charset is the error (the panic of rand.Intn(0)) |
| Krand.LettersAreAscii | pkg/tool/krand.go:10 | the letter alphabet is the 52 ASCII letters |
| XingChen.DoStreamRequest | app/llmcenter/cmd/rpc/internal/llm/xingchenclient.go:147-169 | the body is read iff the status is 200; a request that cannot be built or sent is ErrLLMApiCancel, any other status is ErrLLMApiError |
| XingChen.HandleInterruptEvent | app/llmcenter/cmd/rpc/internal/llm/xingchenclient.go:222-240 | stores the event id under "llm:interrupt:"+conversation for 1200 s, then sends the interrupt event; a failed store sends nothing and is ErrLLMInterruptEventNotSet |
| XingChen.Handle | app/llmcenter/cmd/rpc/internal/llm/xingchenclient.go:101-141 | a handler error always stops the stream; a handler only appends to what was sent; the resume handler leaves the token store alone and stops only on an error |
| XingChen.HandleSends | app/llmcenter/cmd/rpc/internal/llm/xingchenclient.go:101-118 | one frame sends at most one event: the interrupt event, or a message event for a non-empty delta |
| XingChen.ProcessFrom | app/llmcenter/cmd/rpc/internal/llm/xingchenclient.go:172-216 | the line loop only appends to the events sent and keeps the outbox capacity |
| XingChen.ProcessFromShape | app/llmcenter/cmd/rpc/internal/llm/xingchenclient.go:172-216 | what was sent is a well-formed run; a stopped or failed turn returns ""; otherwise the reply is the concatenation of exactly the message chunks sent, in order |
| XingChen.SkipsLine | app/llmcenter/cmd/rpc/internal/llm/xingchenclient.go:176-187 | an empty line, a line without "data: " or one that does not decode is skipped: the scan goes on at the next line as if it were absent |
| XingChen.AbortsOnCode | app/llmcenter/cmd/rpc/internal/llm/xingchenclient.go:189-192 | a decoded frame with a non-zero code ends the turn with ErrLLMApiError and sends nothing more |
| XingChen.StopEndsScan | app/llmcenter/cmd/rpc/internal/llm/xingchenclient.go:199-209 | once a zero-code frame with finish reason "stop" is reached, neither the lines after it nor a later read error change the turn |
| XingChen.ReadErrorFails | app/llmcenter/cmd/rpc/internal/llm/xingchenclient.go:176-215 | a scan over a body whose reading fails succeeds only if it ended earlier on a final frame ("stop", or the chat handler's interrupt) |
| XingChen.StreamChat | app/llmcenter/cmd/rpc/internal/llm/xingchenclient.go:93-121 | a request error sends nothing; otherwise the events sent form a well-formed run, and a successful turn's reply is "" when it ended on the interrupt event and otherwise exactly the chunks sent, in order |
| XingChen.StreamResume | app/llmcenter/cmd/rpc/internal/llm/xingchenclient.go:124-144 | leaves the token store unchanged, sends only message events, and returns the concatenation of the chunks it sent |
| Enrich.KindOf | app/llmcenter/cmd/rpc/internal/logic/chatCompletionsLogic.go:78-87 | unsupported iff the extension is not one of the five document extensions |
| Enrich.MatchedKind | app/llmcenter/cmd/rpc/internal/logic/chatCompletionsLogic.go:62-87 | a name the case-insensitive pattern matches has a supported extension unless its suffix contains the long s |
| Enrich.LongSUnsupported | app/llmcenter/cmd/rpc/internal/logic/chatCompletionsLogic.go:62-87 | an extension containing U+017F is unsupported in the switch |
| Enrich.MatchedExt | app/llmcenter/cmd/rpc/internal/logic/chatCompletionsLogic.go:62-75 | a matched name's extension is the matched suffix, dot-led |
| Enrich.Cut | app/llmcenter/cmd/rpc/internal/logic/chatCompletionsLogic.go:93-99 | content up to 5000 bytes is kept whole; longer content becomes its first 5000 bytes and the truncation mark |
| Enrich.Read | app/llmcenter/cmd/rpc/internal/logic/chatCompletionsLogic.go:78-91 | each kind is read by its own reader; the read fails iff that reader fails; text is the file's bytes, docx the docx reader's text and pdf the cleaned pdf text, UTF-8 encoded; an unsupported kind keeps the inherited error |
| Enrich.Step | app/llmcenter/cmd/rpc/internal/logic/chatCompletionsLogic.go:63-101 | a reference that is neither image nor document changes nothing; an image sets the image only when its upload succeeds; a document leaves the image alone, sets the error flag to the read's outcome and appends its cut content as a segment exactly when the read succeeds |
| Enrich.EnrichAll | app/llmcenter/cmd/rpc/internal/logic/chatCompletionsLogic.go:58-102 | enrichment only appends to the prompt |
| Enrich.LastImage | app/llmcenter/cmd/rpc/internal/logic/chatCompletionsLogic.go:65-72 | the image is that of the last image reference whose upload succeeded, or unchanged when none did |
| Enrich.StepAppends | app/llmcenter/cmd/rpc/internal/logic/chatCompletionsLogic.go:73-101 | one step appends exactly that reference's contribution |
| Enrich.EnrichAppends | app/llmcenter/cmd/rpc/internal/logic/chatCompletionsLogic.go:58-102 | for references that never reach the switch's default case, the enriched prompt is the prompt followed by every reference's contribution, in order |
| Enrich.TxtIsText | app/llmcenter/cmd/rpc/internal/logic/chatCompletionsLogic.go:62-80 | a ".txt" file reference is a document read as text |
| Enrich.LongSIsUnsupported | app/llmcenter/cmd/rpc/internal/logic/chatCompletionsLogic.go:62-87 | "b.cſv" matches the document pattern but has an unsupported extension |
| Enrich.UnsupportedInheritsError | app/llmcenter/cmd/rpc/internal/logic/chatCompletionsLogic.go:73-91 | after a failed read, a long-s reference is skipped because of the earlier error, and after a good read its content is appended |
| ChatCompletionsRpc.GenerateTitle | app/llmcenter/cmd/rpc/internal/logic/chatCompletionsLogic.go:369-377 | a prompt of at most 15 runes is its own title; a longer one gives exactly its first 15 runes followed by "..." |
| ChatCompletionsRpc.TitleRuneSafe | app/llmcenter/cmd/rpc/internal/logic/chatCompletionsLogic.go:369-377 | the title's head is a byte prefix of the prompt's UTF-8 encoding that decodes to whole runes |
| ChatCompletionsRpc.GetOrCreateConversation | app/llmcenter/cmd/rpc/internal/logic/chatCompletionsLogic.go:135-171 | an empty id creates a conversation with the generated title and empty history; otherwise not-found, database error, foreign owner and history failure are each reported exactly in their case |
| ChatCompletionsRpc.BuildLlmRequest | app/llmcenter/cmd/rpc/internal/logic/chatCompletionsLogic.go:174-204 | the history is the last min(10, n) messages in order, role and content copied and content type "text"; stream on, the conversation as chat id, the decimal user id |
| ChatCompletionsRpc.HandleStreamEvents | app/llmcenter/cmd/rpc/internal/logic/chatCompletionsLogic.go:250-301 | only appends to the events sent and keeps the outbox capacity |
| ChatCompletionsRpc.HandleStreamEventsAgree | app/llmcenter/cmd/rpc/internal/logic/chatCompletionsLogic.go:250-323 | the logic's own loop behaves exactly as the client's line loop with the chat handler |
| ChatCompletionsRpc.StreamTurnShape | app/llmcenter/cmd/rpc/internal/logic/chatCompletionsLogic.go:250-301 | the events form a well-formed run; an interrupted turn returns "", any other the concatenation of the chunks sent |
| ChatCompletionsRpc.StreamSkipsLine | app/llmcenter/cmd/rpc/internal/logic/chatCompletionsLogic.go:254-265 | an empty line, a line without "data: " or one that does not decode is skipped |
| ChatCompletionsRpc.StreamAbortsOnCode | app/llmcenter/cmd/rpc/internal/logic/chatCompletionsLogic.go:267-270 | a decoded frame with a non-zero code ends the turn with ErrLLMApiError |
| ChatCompletionsRpc.StreamStopEndsScan | app/llmcenter/cmd/rpc/internal/logic/chatCompletionsLogic.go:273-294 | after the first zero-code "stop" frame, the rest of the body and a read error do not change the turn |
| ChatCompletionsRpc.StreamReadErrorFails | app/llmcenter/cmd/rpc/internal/logic/chatCompletionsLogic.go:254-298 | a body whose reading fails gives a successful turn only when a "stop" or interrupt frame ended the loop before the failure |
| ChatCompletionsRpc.Metadata | app/llmcenter/cmd/rpc/internal/logic/chatCompletionsLogic.go:343-346 | the metadata column is NULL iff the references JSON is "" or "null" |
| ChatCompletionsRpc.SaveAssistantMessage | app/llmcenter/cmd/rpc/internal/logic/chatCompletionsLogic.go:326-354 | an empty reply stores nothing and gives id ""; a marshal failure is a request-parameter error; an insert failure is a database error; otherwise one "document_outline" row holding the reply |
| ChatCompletionsRpc.ProcessLlmStream | app/llmcenter/cmd/rpc/internal/logic/chatCompletionsLogic.go:208-247 | a request error is returned as is, with nothing sent or stored; a failed scan returns the scan's own error and stores nothing; otherwise at most the one assistant row is appended, and the end event, sent last, carries the message id exactly when that row was stored, else "" |
| ChatCompletionsRpc.EndAfterSaveFailure | app/llmcenter/cmd/rpc/internal/logic/chatCompletionsLogic.go:240-246 | a failed save still ends the turn with an end event whose message id is "" |
| ChatCompletionsRpc.InterruptThenEnd | app/llmcenter/cmd/rpc/internal/logic/chatCompletionsLogic.go:240-278 | an interrupted turn sends the interrupt event and then an end event with an empty message id, and stores no assistant message |
| ChatCompletionsRpc.ChatCompletions | app/llmcenter/cmd/rpc/internal/logic/chatCompletionsLogic.go:46-116 | a conversation error stops the turn; the stored user message is the raw prompt, while the request carries the enriched prompt, the image and the history window |
| RpcPdfText.IsNewParagraphIff | app/llmcenter/cmd/rpc/internal/logic/chatCompletionsLogic.go:552-559 | holds iff the trimmed line starts with an ASCII capital; a Chinese first character never counts |
| RpcPdfText.CleanFrom | app/llmcenter/cmd/rpc/internal/logic/chatCompletionsLogic.go:531-549 | every newline in the output is followed by an ASCII capital |
| RpcPdfText.CleanPdfText | app/llmcenter/cmd/rpc/internal/logic/chatCompletionsLogic.go:531-549 | every newline in the output is followed by an ASCII capital |
| RpcPdfText.CleanKeepsText | app/llmcenter/cmd/rpc/internal/logic/chatCompletionsLogic.go:531-549 | with its newlines removed, the output is the trimmed non-blank lines concatenated, in order |
| FileProcessor.CleanPdfTextShape | pkg/fileprocessor/fileprocessor.go:181-208 | the output is clean paragraphs, each followed by "\n\n", then a clean last paragraph; a clean paragraph is trimmed, has no newline, and is non-empty unless it is the tail |
| FileProcessor.CleanFixesShape | pkg/fileprocessor/fileprocessor.go:181-208 | text already in that shape is left unchanged |
| FileProcessor.CleanPdfTextIdempotent | pkg/fileprocessor/fileprocessor.go:181-208 | cleaning twice is cleaning once |
| ChatResumeRpc.ValidateConversation | app/llmcenter/cmd/rpc/internal/logic/chatResumeLogic.go:91-103 | passes iff the lookup succeeds and the user owns the conversation; not-found, database error and access denied each in exactly their case |
| ChatResumeRpc.ResumeScanShape | app/llmcenter/cmd/rpc/internal/logic/chatResumeLogic.go:138-177 | the resume loop sends only message events and returns the concatenation of the chunks it sent |
| ChatResumeRpc.ResumeScanAgree | app/llmcenter/cmd/rpc/internal/logic/chatResumeLogic.go:138-177 | on a body whose lines all carry "data: ", the logic's loop agrees with the client's loop using the resume handler |
| ChatResumeRpc.BareLineRelayed | app/llmcenter/cmd/rpc/internal/logic/chatResumeLogic.go:140-158 | a decodable line without the "data: " prefix is still relayed by the resume loop |
| ChatResumeRpc.ProcessResumeStream | app/llmcenter/cmd/rpc/internal/logic/chatResumeLogic.go:106-206 | a request error is returned with nothing sent or stored; a failed scan returns its error and stores nothing; a successful scan attempts the "final_document" row, which on success holds exactly the chunks sent, and the end event carries the id generated for it |
| ChatResumeRpc.ChatResume | app/llmcenter/cmd/rpc/internal/logic/chatResumeLogic.go:40-88 | validation comes before the token; an empty token is not-found; the token is deleted once read; the user message is stored before the upstream call, whose body is the token, "resume" and the content |
| ChatResumeRpc.EmptyTokenNotFound | app/llmcenter/cmd/rpc/internal/logic/chatResumeLogic.go:47-55 | an empty stored token reports not-found even when the store read fails |
| ChatResumeRpc.SecondResumeFails | app/llmcenter/cmd/rpc/internal/logic/chatResumeLogic.go:47-57 | after one resume whose token delete succeeds, a second resume of the same conversation reports not-found |
| ChatResumeRpc.EndAfterFinalSaveFailure | app/llmcenter/cmd/rpc/internal/logic/chatResumeLogic.go:180-203 | a failed final save still sends the end event with the generated id |
| ChatResumeRpc.EmptyReplyStillStored | app/llmcenter/cmd/rpc/internal/logic/chatResumeLogic.go:180-194 | an empty reply is still stored as a "final_document" row with metadata "{}" |
| DocRepo.DocCacheKey | app/llmcenter/cmd/rpc/internal/repository/document_repository.go:23-25 | the key is "document:info:" followed by the message id |
| DocRepo.DocCacheKeyInjective | app/llmcenter/cmd/rpc/internal/repository/document_repository.go:15-25 | distinct message ids have distinct cache keys |
| DocRepo.FindDocument | app/llmcenter/cmd/rpc/internal/repository/document_repository.go:42-77 | a readable cached document is returned without the database; otherwise the database answer is returned, errors unchanged and cache untouched; a hit is cached for 86400 s, and a failed cache write does not change the result |
| DocRepo.UpdateDocumentContent | app/llmcenter/cmd/rpc/internal/repository/document_repository.go:80-100 | a failed database update is returned and changes nothing; otherwise the row holds the new content and the cache entry is deleted, a failed delete being ignored |
| DocRepo.FindCoherent | app/llmcenter/cmd/rpc/internal/repository/document_repository.go:42-77 | on a store whose cache agrees with the database, a lookup returns the database row and keeps the store coherent |
| DocRepo.UpdateCoherent | app/llmcenter/cmd/rpc/internal/repository/document_repository.go:80-100 | an update whose cache delete succeeds keeps a coherent store coherent |
| DocRepo.ReadAfterUpdate | app/llmcenter/cmd/rpc/internal/repository/document_repository.go:42-100 | after a successful update and invalidation, the next lookup returns the new content |
| DocRepo.StaleAfterFailedInvalidation | app/llmcenter/cmd/rpc/internal/repository/document_repository.go:47-97 | when the delete fails, the next lookup still returns the old cached content |
| EditDocumentRpc.EditPrompt | app/llmcenter/cmd/rpc/internal/logic/editdocumentlogic.go:56 | the prompt is the fixed template with the content and then the hint placed in it; given the parts' lengths, each sits at its own place |
| EditDocumentRpc.EditPromptInjective | app/llmcenter/cmd/rpc/internal/logic/editdocumentlogic.go:56 | equal prompts whose contents have equal lengths, or whose hints have equal lengths, have the same content and the same hint |
| EditDocumentRpc.EditPromptAmbiguous | app/llmcenter/cmd/rpc/internal/logic/editdocumentlogic.go:56 | without a known length the prompt does not determine the split: a content holding the hint label and a shorter one give the same prompt |
| EditDocumentRpc.EditLlmRequest | app/llmcenter/cmd/rpc/internal/logic/editdocumentlogic.go:58-65 | flow id, decimal user id, stream on, the prompt as input, and no chat id or history |
| EditDocumentRpc.Finish | app/llmcenter/cmd/rpc/internal/logic/editdocumentlogic.go:81-123 | on success the edit's user and assistant rows are appended, the document's content becomes the result (even an empty one) and one end event is sent; any store failure sends nothing more |
| EditDocumentRpc.EditDocument | app/llmcenter/cmd/rpc/internal/logic/editdocumentlogic.go:35-124 | a failed lookup stops before any call or insert; the request is built from the found content; a stream error stores nothing; success ends with one end event naming the document's message id |
| EditDocumentRpc.EditIsVisible | app/llmcenter/cmd/rpc/internal/logic/editdocumentlogic.go:110-113 | after a successful edit whose invalidation succeeds, the next FindDocument returns the edited content |
| EventStream.ParseRender | app/llmcenter/cmd/api/internal/logic/chat/chatCompletionsLogic.go:146-164 | a reader of the event-stream format recovers exactly the frames written, in order |
| EventStream.ParseCutFrame | app/llmcenter/cmd/api/internal/logic/chat/chatResumeLogic.go:126-144 | a frame cut after its event line is not dispatched to the reader |
| EventStream.ParseAfterComment | app/llmcenter/cmd/api/internal/logic/chat/editdocumentlogic.go:75 | the ": connected" comment is invisible to the reader |
| SseRelay.PlannedShape | app/llmcenter/cmd/api/internal/logic/chat/chatCompletionsLogic.go:98-142 | the planned frames are the forwarded events in order, ended by an end frame or (resume and edit) by one error frame |
| SseRelay.ChatLoop | app/llmcenter/cmd/api/internal/logic/chat/chatCompletionsLogic.go:98-142 | the chat relay writes its planned frames, two writes each, until one is refused |
| SseRelay.ResumeLoop | app/llmcenter/cmd/api/internal/logic/chat/chatResumeLogic.go:93-121 | the resume relay writes its planned frames, two writes each, until one is refused |
| SseRelay.EditLoop | app/llmcenter/cmd/api/internal/logic/chat/editdocumentlogic.go:78-101 | the edit relay writes each planned frame in one write, carrying on after a refused message write |
| SseRelay.Relay | app/llmcenter/cmd/api/internal/logic/chat/chatCompletionsLogic.go:98-142 | each relay accepts exactly its planned writes up to the connection's capacity |
| SseRelay.PlannedChatIgnoresEnd | app/llmcenter/cmd/api/internal/logic/chat/chatCompletionsLogic.go:108-112 | the chat relay's frames do not depend on whether the stream ended by EOF or by an error |
| SseRelay.ClientView | app/llmcenter/cmd/api/internal/logic/chat/chatResumeLogic.go:93-144 | a client reading the body receives exactly the first planned frames the connection delivered, in order |
| SseRelay.CallOf | app/llmcenter/cmd/api/internal/logic/chat/chatResumeLogic.go:48-67 | the rpc request copies the caller's fields; resume references are nil when none are given, otherwise converted one for one |
| SseRelay.Serve | app/llmcenter/cmd/api/internal/logic/chat/chatCompletionsLogic.go:48-95 | 401 iff there is no user id; 500 with the error when the rpc cannot be opened; 500 "Streaming not supported" when the writer cannot flush; an event stream with status 200 iff the user, the rpc and flushing are all available |
| SseRelay.ServeView | app/llmcenter/cmd/api/internal/logic/chat/editdocumentlogic.go:38-101 | when serving succeeds, a reader of the response body receives the delivered planned frames |
| Markdown.ParseExportType | app/llmcenter/cmd/rpc/internal/logic/convertmarkdownlogic.go:34-37 | accepts exactly "pdf" and "docx" after trimming and lowercasing |
| Markdown.ExportTypeRoundTrip | app/llmcenter/cmd/rpc/internal/logic/convertmarkdownlogic.go:34-37 | a type name padded with spaces or in upper case is read back as that type |
| Markdown.ParseInlinesSource | app/llmcenter/cmd/rpc/internal/logic/convertmarkdownlogic.go:177-212 | putting the delimiters back around styled runs and concatenating reproduces the input with tabs widened to four spaces |
| Markdown.ParseInlinesWellFormed | app/llmcenter/cmd/rpc/internal/logic/convertmarkdownlogic.go:177-212 | "" gives no runs, and no run is an empty plain run |
| Markdown.PlainText | app/llmcenter/cmd/rpc/internal/logic/convertmarkdownlogic.go:177-212 | text with no delimiter gives one plain run |
| Markdown.SplitAfter | app/llmcenter/cmd/rpc/internal/logic/convertmarkdownlogic.go:214-220 | with no separator the text is unchanged, otherwise it is what follows the first separator |
| Markdown.HeadingForm | app/llmcenter/cmd/rpc/internal/logic/convertmarkdownlogic.go:101-136 | one to six hashes and whitespace form a heading of that level |
| Markdown.NotHeading | app/llmcenter/cmd/rpc/internal/logic/convertmarkdownlogic.go:101-136 | seven or more hashes never form a heading |
| Markdown.LineKinds | app/llmcenter/cmd/rpc/internal/logic/convertmarkdownlogic.go:115-172 | a fence line is no heading or item, and a heading line no item |
| Markdown.ParseFence | app/llmcenter/cmd/rpc/internal/logic/convertmarkdownlogic.go:115-127 | a fence gives one code block of the lines verbatim up to the closing fence, which is consumed |
| Markdown.ParseHeading | app/llmcenter/cmd/rpc/internal/logic/convertmarkdownlogic.go:130-136 | a heading line gives one heading block of its level and parsed text |
| Markdown.ParseList | app/llmcenter/cmd/rpc/internal/logic/convertmarkdownlogic.go:139-159 | a list groups the consecutive items of its first line's kind |
| Markdown.ParseParagraph | app/llmcenter/cmd/rpc/internal/logic/convertmarkdownlogic.go:162-171 | a paragraph absorbs every following non-blank line, trimmed and joined by spaces |
| Markdown.ParseBlank | app/llmcenter/cmd/rpc/internal/logic/convertmarkdownlogic.go:172 | a blank line gives no block |
| Markdown.OrderedItemText | app/llmcenter/cmd/rpc/internal/logic/convertmarkdownlogic.go:139-147 | an ordered item "N. text" has the text after its marker |
| Markdown.OrderedItemAfterTab | app/llmcenter/cmd/rpc/internal/logic/convertmarkdownlogic.go:139-147 | the item text is cut at the first ". " on the line, not at the marker |
| Markdown.Latin1Bytes | app/llmcenter/cmd/rpc/internal/logic/convertmarkdownlogic.go:321-330 | fails iff some rune exceeds 0xFF; otherwise one byte per rune equal to the rune |
| Markdown.Latin1RoundTrip | app/llmcenter/cmd/rpc/internal/logic/convertmarkdownlogic.go:321-330 | bytes read as Latin-1 runes convert back to the same bytes |
| Markdown.RepairKeepsWide | app/llmcenter/cmd/rpc/internal/logic/convertmarkdownlogic.go:303-319 | text with a rune above 0xFF is left alone |
| Markdown.RepairKeepsAscii | app/llmcenter/cmd/rpc/internal/logic/convertmarkdownlogic.go:303-319 | ASCII text is left alone |
| Markdown.RepairUndoesMisreading | app/llmcenter/cmd/rpc/internal/logic/convertmarkdownlogic.go:303-319 | UTF-8 text misread as Latin-1 is restored when the decoder decodes its bytes |
| Markdown.XmlEscape | app/llmcenter/cmd/rpc/internal/logic/convertmarkdownlogic.go:447 | the escaped text has no markup characters |
| Markdown.UnescapeEscape | app/llmcenter/cmd/rpc/internal/logic/convertmarkdownlogic.go:447 | unescaping the escaped text gives the text back |
| Markdown.RunTextRoundTrip | app/llmcenter/cmd/rpc/internal/logic/convertmarkdownlogic.go:415-437 | a run's XML carries exactly the run's text |
| Markdown.HeadingSizes | app/llmcenter/cmd/rpc/internal/logic/convertmarkdownlogic.go:383-386 | heading levels 1 to 6 get 32, 29, 26, 23, 20 and 18 half-points |
| Markdown.ItemPrefix | app/llmcenter/cmd/rpc/internal/logic/convertmarkdownlogic.go:390-398 | an unordered item is led by "• ", the k-th ordered item by "k. " numbered from 1 |
| Markdown.BlockParas | app/llmcenter/cmd/rpc/internal/logic/convertmarkdownlogic.go:375-413 | a list gives one paragraph per item; a code block gives a single code paragraph; every other block gives one paragraph |
| Markdown.CodeVerbatim | app/llmcenter/cmd/rpc/internal/logic/convertmarkdownlogic.go:399-445 | for ASCII code (every rune below 0x80), a code block's text is its lines, unparsed |
| Markdown.SortNames | app/llmcenter/cmd/rpc/internal/logic/convertmarkdownlogic.go:343 | the result is a sorted permutation of the names |
| Markdown.SortedUnique | app/llmcenter/cmd/rpc/internal/logic/convertmarkdownlogic.go:343 | two sorted permutations of the same names are equal |
| Markdown.DocxParts | app/llmcenter/cmd/rpc/internal/logic/convertmarkdownlogic.go:362-371 | the archive holds exactly the six package parts, the document part being the built body |
| Markdown.ZipEntries | app/llmcenter/cmd/rpc/internal/logic/convertmarkdownlogic.go:338-360 | one entry per name, sorted by name, each with that name's content |
| Markdown.DocxEntryOrder | app/llmcenter/cmd/rpc/internal/logic/convertmarkdownlogic.go:338-371 | whatever order the map yields its names, the archive entries come in the one sorted order |
| Markdown.ConvertMarkdown | app/llmcenter/cmd/rpc/internal/logic/convertmarkdownlogic.go:33-68 | an unsupported type iff the type is not pdf or docx; otherwise the file of that format rendered from the parsed blocks, with its file name and content type |
| Markdown.NormalizeToCrlf | app/llmcenter/cmd/rpc/internal/logic/convertmarkdownlogic.go:38 | normalising CRLF undoes writing lines with CRLF |
| Markdown.CrlfInsensitive | app/llmcenter/cmd/rpc/internal/logic/convertmarkdownlogic.go:38 | CRLF and LF line ends convert alike |
| History.Resolve | app/llmcenter/cmd/rpc/internal/logic/gethistorydatalogic.go:51-82 | the reference keeps the id and type, and names the stored file or "文件已过期或不存在" when it is gone |
| History.References | app/llmcenter/cmd/rpc/internal/logic/gethistorydatalogic.go:51-82 | only "file" and "formfile" refs become references, in order |
| History.ReferencesAppend | app/llmcenter/cmd/rpc/internal/logic/gethistorydatalogic.go:51-82 | the mapping works ref by ref, so order is kept |
| History.ReferencesCount | app/llmcenter/cmd/rpc/internal/logic/gethistorydatalogic.go:51-82 | there is one reference per file or formfile ref |
| History.MissingFileListed | app/llmcenter/cmd/rpc/internal/logic/gethistorydatalogic.go:60-80 | a ref whose file is gone is still listed, under the expired name |
| History.RowReferences | app/llmcenter/cmd/rpc/internal/logic/gethistorydatalogic.go:47-49 | NULL or undecodable metadata gives no references |
| History.GetHistoryData | app/llmcenter/cmd/rpc/internal/logic/gethistorydatalogic.go:36-101 | a database error iff the query fails; otherwise one item per row in order, with the conversation id echoed |
| FilePath.Parse | app/llmcenter/cmd/api/internal/logic/file/getFileLogic.go:42-45 | the parsed path is in clean form |
| FilePath.CleanIdempotent | app/llmcenter/cmd/api/internal/logic/file/getFileLogic.go:42-45 | cleaning a clean path changes nothing |
| FilePath.CleanSame | app/llmcenter/cmd/api/internal/logic/file/getFileLogic.go:42-45 | two paths clean alike iff they have the same parsed form |
| FilePath.ParseRender | app/llmcenter/cmd/api/internal/logic/file/getFileLogic.go:42-45 | a clean path written out parses back to itself |
| FilePath.JoinElems | app/llmcenter/cmd/api/internal/logic/file/getFileLogic.go:45 | joining walks the second path's elements onto the first |
| FilePath.JoinBelow | app/llmcenter/cmd/api/internal/logic/file/getFileLogic.go:45 | joining a path that does not climb appends its elements |
| FilePath.Rel | app/llmcenter/cmd/api/internal/logic/file/getFileLogic.go:48 | a rooted and an unrooted path have no relative path |
| FilePath.RelInside | app/llmcenter/cmd/api/internal/logic/file/getFileLogic.go:48-52 | a relative path that does not start with ".." means the target lies in the base |
| FilePath.RelBelow | app/llmcenter/cmd/api/internal/logic/file/getFileLogic.go:48 | for a target inside the base, the relative path is its remaining elements |
| FilePath.RelToDot | app/llmcenter/cmd/api/internal/logic/file/getFileLogic.go:48 | climbing from a relative base to "." gives one ".." per base element followed by "/.", and no answer when the base starts with ".." |
| FilePath.Base | app/llmcenter/cmd/api/internal/logic/agent/publicdownloadlogic.go:53 | the base name is never empty |
| FilePath.Ext | app/llmcenter/cmd/rpc/internal/logic/fileUploadLogic.go:55-57 | the extension is "" or a dot-led suffix of the path with no separator and no other '.' |
| FilePath.ExtEmpty | app/llmcenter/cmd/rpc/internal/logic/fileUploadLogic.go:55-57 | the extension is "" exactly when the last element holds no '.' |
| FilePath.ExtSuffix | app/llmcenter/cmd/rpc/internal/logic/fileUploadLogic.go:55-57 | the extension starts at the last '.' after which no '.' or separator follows |
| GetFileApi.GetFile | app/llmcenter/cmd/api/internal/logic/file/getFileLogic.go:35-100 | 400 iff the path is empty; 403 iff the relative path fails or starts with ".."; any path opened lies in the base; 404, 500 and 400 for a missing file, another open error and a directory; Content-Length is the file size |
| GetFileApi.Respond | app/llmcenter/cmd/api/internal/logic/file/getFileLogic.go:56-98 | served iff a regular file is found, with the content type and the file's bytes |
| GetFileApi.OrdinaryAdmitted | app/llmcenter/cmd/api/internal/logic/file/getFileLogic.go:42-56 | a path of plain names is opened under the base at those names |
| GetFileApi.DotDotNameRefused | app/llmcenter/cmd/api/internal/logic/file/getFileLogic.go:48-52 | a name starting with "..", like "..config", is refused although it stays inside |
| GetFileApi.LeadingSlashIgnored | app/llmcenter/cmd/api/internal/logic/file/getFileLogic.go:44 | a leading slash changes nothing |
| UrlCodec.UnescapeEscape | app/llmcenter/cmd/rpc/internal/logic/convertmarkdownlinklogic.go:82-84 | unescaping an escaped name gives it back, for query and path escaping |
| UrlCodec.EscapeUnreserved | app/llmcenter/cmd/rpc/internal/logic/convertmarkdownlinklogic.go:82-84 | text of unreserved characters is not changed by escaping |
| UrlCodec.Base64Url | app/llmcenter/cmd/rpc/internal/logic/convertmarkdownlinklogic.go:94-98 | all characters from the URL-safe alphabet |
| UrlCodec.Base64UrlLength | app/llmcenter/cmd/rpc/internal/logic/convertmarkdownlinklogic.go:94-98 | unpadded length ceil(4n/3) for n bytes |
| UrlCodec.Base64UrlRoundTrip | app/llmcenter/cmd/rpc/internal/logic/convertmarkdownlinklogic.go:94-98 | decoding the encoding gives the bytes back |
| UrlCodec.Base64UrlInjective | app/llmcenter/cmd/api/internal/logic/agent/publicdownloadlogic.go:87-92 | different MACs give different signatures |
| DownloadLinks.SignHmac | app/llmcenter/cmd/rpc/internal/logic/convertmarkdownlinklogic.go:94-98 | the signature uses only URL-safe characters |
| DownloadLinks.SignatureNamesMac | app/llmcenter/cmd/api/internal/logic/agent/publicdownloadlogic.go:45-50 | two texts sign alike iff their MACs are equal |
| DownloadLinks.SignedTextUnambiguous | app/llmcenter/cmd/rpc/internal/logic/convertmarkdownlinklogic.go:79 | "<name>\|<exp>" determines the name and the expiry |
| DownloadLinks.LinkNamePlain | app/llmcenter/cmd/rpc/internal/logic/convertmarkdownlinklogic.go:66-68 | the ULID name with its extension is one plain path element |
| DownloadLinks.Lifetime | app/llmcenter/cmd/rpc/internal/logic/convertmarkdownlinklogic.go:74-77 | a configured expiry <= 0 becomes 600 s, otherwise it is kept |
| DownloadLinks.ConvertMarkdownLink | app/llmcenter/cmd/rpc/internal/logic/convertmarkdownlinklogic.go:36-92 | conversion errors stop before writing; the file is written under the ULID name; exp is now plus the lifetime; the URL is the trimmed base, the escaped name, exp and the signature of "<name>\|<exp>"; the path is the bare name |
| DownloadLinks.LinkQueryRoundTrip | app/llmcenter/cmd/rpc/internal/logic/convertmarkdownlinklogic.go:82-84 | the link's query gives back the name, the expiry and the signature |
| DownloadLinks.NameCheck | app/llmcenter/cmd/api/internal/logic/agent/publicdownloadlogic.go:53-57 | a name passes iff it is "." or a single element without a backslash; ".." passes too |
| DownloadLinks.PublicDownload | app/llmcenter/cmd/api/internal/logic/agent/publicdownloadlogic.go:37-85 | expired iff now > exp; then a bad signature; then a bad name; then an open failure; otherwise the file served as an attachment with the path-escaped name, with the MIME type of its extension or "application/octet-stream" when there is none |
| DownloadLinks.MintThenDownload | app/llmcenter/cmd/rpc/internal/logic/convertmarkdownlinklogic.go:62-84 | with one key and before expiry, a freshly minted link passes every check and serves the written file |
| DownloadFileApi.InfoItems | app/llmcenter/cmd/api/internal/logic/chat/downloadfilelogic.go:44-54 | no items are sent as nil, otherwise the items one for one |
| DownloadFileApi.DownloadFile | app/llmcenter/cmd/api/internal/logic/chat/downloadfilelogic.go:33-72 | a bad type is refused before the prompt is checked; a blank prompt is refused; otherwise the rpc gets the normalised type and the untrimmed prompt, and its file or error is passed back unchanged |
| DownloadFileApi.ForwardedAsRequested | app/llmcenter/cmd/api/internal/logic/chat/downloadfilelogic.go:34-65 | forwarding the normalised type converts exactly as the caller's own type would |
| Users.Find | app/usercenter/cmd/rpc/internal/logic/loginLogic.go:48-55 | the first user with the mobile, or none iff nobody has it |
| Users.Register | app/usercenter/cmd/rpc/internal/logic/registerLogic.go:30-75 | an 11-byte mobile is required before any lookup; an existing mobile or a lookup error inserts nothing; the new row gets the next id, the mobile, MD5 of a non-empty password and a random "用户" nickname only when none is given; the token is issued for the new id |
| Users.Login | app/usercenter/cmd/rpc/internal/logic/loginLogic.go:32-71 | database error, not found, wrong password and token failure each in exactly their case; otherwise the token of the user found |
| Users.DrawNickname | app/usercenter/cmd/rpc/internal/logic/registerLogic.go:46-48 | a supplied nickname leaves the row's nickname empty; an empty one gets "用户" followed by four random letters |
| Users.RegisterThenLogin | app/usercenter/cmd/rpc/internal/logic/registerLogic.go:49-68 | a user who registers with a password logs in with it and gets the same token |
| Users.FindAppended | app/usercenter/cmd/rpc/internal/logic/registerLogic.go:52-55 | a fresh mobile is found on the row appended for it |
| Users.RegisterKeepsUnique | app/usercenter/cmd/rpc/internal/logic/registerLogic.go:36-55 | registering keeps mobiles unique |
| Upload.ReceiveChunks | app/llmcenter/cmd/rpc/internal/logic/fileUploadLogic.go:75-107 | on EOF the data written is the received chunks concatenated in order; another receive error, a non-chunk message or a write failure stops the loop with that cause |
| Upload.ServeUpload | app/llmcenter/cmd/rpc/internal/logic/fileUploadLogic.go:40-123 | a failed first receive and a first message that is not file info fail before any file exists; the file is kept only on success or a failed reply; the reply is the id, the original name and "/files/" plus the stored name |
| Upload.LeadingChunksWire | app/llmcenter/cmd/rpc/internal/logic/fileUploadLogic.go:75-99 | the loop reads every chunk that was sent before the stream's end |
| Upload.StreamRoundTrip | app/llmcenter/cmd/rpc/internal/logic/fileUploadLogic.go:55-123 | when the disk and the reply succeed, the stored file holds the chunks concatenated under the uuid-and-extension name |
| Upload.StoredInUploadDir | app/llmcenter/cmd/rpc/internal/logic/fileUploadLogic.go:55-63 | the stored name is one plain element, so the file lies directly in the upload directory |
| Upload.ClientUpload | app/llmcenter/cmd/api/internal/logic/file/fileUploadLogic.go:34-99 | no file is an error, an unopenable file another; the first message is the file info with the original name; every later message is a chunk of 1 to 32768 bytes; the reply is copied unchanged |
| Upload.UploadEndToEnd | app/llmcenter/cmd/api/internal/logic/file/fileUploadLogic.go:56-99 | a successful upload stores the posted file under the server's name and answers with that name and the uuid |
| FileCleaner.Walked | pkg/tool/file_cleaner.go:39-65 | each visit skips walk errors and directories, counts files, and removes and frees a due file only when its removal succeeds |
| FileCleaner.ToolCleanOnce | pkg/tool/file_cleaner.go:32-78 | removes exactly the due files whose removal succeeds, in walk order; scanned counts the files, deleted <= scanned; freed is the sum of their sizes; the records deleted are their base names whose record delete succeeds |
| FileCleaner.ApiCleanOnce | app/llmcenter/cmd/api/internal/logic/cleaner/file_cleaner.go:31-67 | removes exactly the due files whose removal succeeds, in walk order, with the same counts and no records |
| FileCleaner.CleanersAgree | app/llmcenter/cmd/api/internal/logic/cleaner/file_cleaner.go:31-67 | the two cleaners scan, remove and free alike |
| FileCleaner.Survivors | pkg/tool/file_cleaner.go:49-57 | a file that is not due, or whose removal fails, is never counted as removed |
| FileCleaner.ByteCountIEC | pkg/tool/file_cleaner.go:80-91 | below 1024 the count in bytes; otherwise the unit index exp with 1024^(exp+1) <= b < 1024^(exp+2) and the letter for that unit |

## Left out

- EditPromptInjective: the prompt alone does not determine the content and the hint when either contains the hint label (EditPromptAmbiguous shows one such pair), so injectivity is stated only for contents of equal length or hints of equal length.
- Transport and I/O: HTTP and gRPC plumbing, headers other than those named
  above, flushing and context cancellation. Sends and receives are sequences
  with a failure point; running out of a stream is end of file.
- Stores: Redis and MySQL are maps and sequences. Their SQL is not modelled.
- Concurrency: the get-then-delete race on the interrupt token, the cleaner's
  ticker job (`file_cleaner_job.go`), the etcd lock and goroutines. The
  single-use token lemma holds for sequential calls only.
- JSON encoding and decoding: parameters that may fail.
- HMAC-SHA256, MD5, ULID, uuid and `math/rand`: parameters. Random choices
  are a sequence of draws.
- MIME lookup and content sniffing: parameters. `http.ServeContent` range
  requests are not modelled.
- The clock: `now` is a parameter. File times are integer seconds.
- `renderPDF` (gofpdf, floating-point geometry): a renderer parameter.
- The archive bytes of `fileMap.zip` and the wall-clock `coreXML`: only the
  entry order and contents are modelled.
- The GB18030 decoder in `RepairChinese`: a parameter.
- The document readers (`readTextFile`, `readDocxFile`, `readPdfFile`) and
  `uploadImageToXingHuo`: parameters.
- `StreamChatForEdit`: its body is not part of this model, so its result is
  a parameter.
- Logging: not modelled.
- FileCleaner.ByteCountIEC: models the unit selection and the letter only.
  The "%.1f" mantissa is floating point. The model also requires b < 2^63,
  the range of Go's int64.
- Upload.ClientUpload: proves that the data sent equals the file content only
  when every read returns at least one byte. A zero-byte read ends the loop
  early, as in the code, and then only a prefix is sent.
- DownloadLinks.MintThenDownload: assumes the minting key and the checking
  key are the same. The code reads them from two different configuration
  entries.
- ProcessFrom, ProcessFromShape, HandleStreamEvents and StreamTurnShape:
  their own contracts state only append-only sending and the reply's
  shape. The loop's skip, abort, stop and read-error behaviour is stated
  by the separate lemmas SkipsLine, AbortsOnCode, StopEndsScan and
  ReadErrorFails (and their Stream counterparts).
- ReadErrorFails: a read error is one flag on the whole body, and a scan
  that breaks on a final frame never looks at it. In Go, `scanner.Err()`
  also reports a failure of the very read that delivered that frame; the
  model returns the reply in that case.
- EnrichAppends: stated only for references whose extension is one of the
  five supported ones. A long-s reference reaches the switch's default case
  and inherits the running error flag. UnsupportedInheritsError shows that
  case.
- Int64 overflow in `exp`, `freed` and durations is not modelled; integers
  are unbounded there.
- Non-UTF-8 byte sequences in unescaped URL parameters are not modelled.
  Names are Unicode text.
- The api pass-through handlers (conversations, conversation detail,
  document detail, update document, the api history and link endpoints,
  usercenter api login and register, user info): they only forward to a
  store or an rpc.
- Generated protobuf code, handlers, service contexts, configuration
  structs and interceptors: glue code.
