/** The api `DownloadFile` handler (api/internal/logic/chat/downloadfilelogic.go):
    checks the export type and the prompt, then forwards the prompt to the
    rpc `ConvertMarkdown` and hands its file back. */
module DownloadFileApi {
  import opened Wrappers
  import opened Text
  import opened Markdown
  import Utf8

  datatype InfoItem = InfoItem(itemType: string, contant: string)

  datatype DownloadFileRequest = DownloadFileRequest(typ: string, prompt: string, information: seq<InfoItem>)

  /** The rpc request; an `information` of `None` is Go's nil slice. */
  datatype ConvertRequest = ConvertRequest(markdown: string, typ: string, information: Option<seq<InfoItem>>)

  /** The rpc client: the file it answers with, or the error text. */
  type ConvertRpc = ConvertRequest -> Result<Export, string>

  datatype DownloadError =
    | TypeUnsupported          // "type 仅支持 pdf 或 docx"
    | PromptEmpty              // "prompt 不能为空"
    | RpcFailed(cause: string) // the rpc error, returned unchanged

  datatype DownloadFileResp = DownloadFileResp(filename: string, contentType: string, data: seq<Utf8.byte>)

  /** The handler's answer, and the request it sent to the rpc if it got
      that far. */
  datatype Call = Call(result: Result<DownloadFileResp, DownloadError>, sent: Option<ConvertRequest>)

  function Message(e: DownloadError): string {
    match e
    case TypeUnsupported => "type 仅支持 pdf 或 docx"
    case PromptEmpty => "prompt 不能为空"
    case RpcFailed(cause) => cause
  }

  /** The information items, one for one; none at all is sent as nil. */
  function InfoItems(items: seq<InfoItem>): (r: Option<seq<InfoItem>>)
    ensures r.None? <==> |items| == 0
    ensures r.Some? ==> r.value == items
  {
    if |items| > 0 then Some(items) else None
  }

  /** `DownloadFile`. */
  function DownloadFile(req: DownloadFileRequest, rpc: ConvertRpc): (c: Call)
    ensures c.result == Err(TypeUnsupported) <==> ParseExportType(req.typ).None?
    ensures c.result == Err(PromptEmpty) <==> ParseExportType(req.typ).Some? && AllSpace(req.prompt)
    ensures c.sent.Some? <==> ParseExportType(req.typ).Some? && !AllSpace(req.prompt)
    ensures c.sent.Some? ==>
      && c.sent.value.markdown == req.prompt
      && c.sent.value.typ == TypeName(ParseExportType(req.typ).value)
      && c.sent.value.typ == ToLower(TrimSpace(req.typ))
      && (c.sent.value.information.None? <==> |req.information| == 0)
      && (c.sent.value.information.Some? ==> c.sent.value.information.value == req.information)
    ensures c.sent.Some? ==>
      match rpc(c.sent.value)
      case Ok(e) => c.result == Ok(DownloadFileResp(e.filename, e.contentType, e.data))
      case Err(cause) => c.result == Err(RpcFailed(cause))
  {
    var t := ToLower(TrimSpace(req.typ));
    if t != "pdf" && t != "docx" then Call(Err(TypeUnsupported), None)
    else
      TrimSpaceEmptyIff(req.prompt);
      if TrimSpace(req.prompt) == "" then Call(Err(PromptEmpty), None)
      else
        var sent := ConvertRequest(req.prompt, t, InfoItems(req.information));
        match rpc(sent)
        case Err(cause) => Call(Err(RpcFailed(cause)), Some(sent))
        case Ok(e) => Call(Ok(DownloadFileResp(e.filename, e.contentType, e.data)), Some(sent))
  }

  /** The rpc side: `ConvertMarkdown` of the markdown module answering a
      request (its information items are not used for the conversion). */
  function Serve(q: ConvertRequest, rr: Renderers, names: seq<string>): Result<Export, string>
    requires multiset(names) == multiset(PartNames)
  {
    match ConvertMarkdown(q.typ, q.markdown, rr, names)
    case Ok(e) => Ok(e)
    case Err(UnsupportedType) => Err("unsupported type")
    case Err(RenderFailed(_)) => Err("render failed")
  }

  /** The type the handler forwards is the canonical name of the type it
      accepted, so the rpc reads it back as the same format: going through
      the handler converts exactly as the rpc would have converted the
      caller's own request. */
  lemma ForwardedAsRequested(req: DownloadFileRequest, rr: Renderers, names: seq<string>)
    requires multiset(names) == multiset(PartNames)
    requires ParseExportType(req.typ).Some? && !AllSpace(req.prompt)
    ensures var c := DownloadFile(req, q => Serve(q, rr, names));
      && c.sent.Some?
      && ConvertMarkdown(c.sent.value.typ, c.sent.value.markdown, rr, names) == ConvertMarkdown(req.typ, req.prompt, rr, names)
      && ConvertMarkdown(c.sent.value.typ, c.sent.value.markdown, rr, names) != Err(UnsupportedType)
  {
    var c := DownloadFile(req, q => Serve(q, rr, names));
    var t := ParseExportType(req.typ).value;
    assert c.sent.value.typ == TypeName(t);
    assert ParseExportType(TypeName(t)) == Some(t) by {
      ExportTypeRoundTrip(t, "", false);
      assert "" + TypeName(t) + "" == TypeName(t);
    }
    SameFormat(TypeName(t), req.typ, req.prompt, rr, names);
  }

  /** The conversion depends on the type only through the format it names. */
  lemma SameFormat(a: string, b: string, markdown: string, rr: Renderers, names: seq<string>)
    requires multiset(names) == multiset(PartNames)
    requires ParseExportType(a) == ParseExportType(b)
    ensures ConvertMarkdown(a, markdown, rr, names) == ConvertMarkdown(b, markdown, rr, names)
  {
  }
}
