/** Streamed file upload: the api `FileUpload` (api/internal/logic/file/fileUploadLogic.go)
    reads the posted file and streams it to the rpc `FileUpload`
    (rpc/internal/logic/fileUploadLogic.go), which stores it under a fresh
    id in the upload directory. The gRPC stream is a sequence of messages;
    the disk, the uuid and the reader are parameters. */
module Upload {
  import opened Wrappers
  import opened Text
  import Utf8
  import opened FilePath

  /** A `FileUploadRequest`: its `data` oneof holds the file's name, a
      chunk of its bytes, or nothing. */
  datatype Msg = InfoMsg(fileName: string) | ChunkMsg(chunk: seq<Utf8.byte>) | EmptyMsg

  /** What one `stream.Recv` yields. */
  datatype Recv = Got(msg: Msg) | RecvFailed | Eof

  /** `FileUploadResponse`. */
  datatype UploadResponse = UploadResponse(fileId: string, fileName: string, url: string, message: string)

  const UploadDir := "./uploads"
  const UploadedMessage := "文件上传成功"
  /** The client's read buffer, 32 KiB. */
  const BufSize := 32 * 1024

  /* ---------------- the rpc side ---------------- */

  /** The server's environment: the uuid it draws, whether the directory
      and the file can be made, and whether the k-th chunk write and the
      final `SendAndClose` succeed. */
  datatype ServerEnv = ServerEnv(uuid: string, mkdirOk: bool, createOk: bool, writeOk: nat -> bool, sendOk: bool)

  datatype ServerError =
    | FirstRecvFailed   // the first `Recv` errs (io.EOF included)
    | NotInfo           // "expected first message to be FileInfo, but it was not"
    | MkdirFailed
    | CreateFailed
    | ChunkRecvFailed   // a later `Recv` errs with something other than io.EOF
    | NotChunk          // "expected subsequent messages to be file chunks"
    | WriteFailed
    | SendFailed

  datatype StoredFile = StoredFile(path: string, data: seq<Utf8.byte>)

  /** The rpc's answer, and the file left on disk afterwards. */
  datatype ServerOutcome = ServerOutcome(result: Result<UploadResponse, ServerError>, stored: Option<StoredFile>)

  /** The `Recv` at position `i`; past the end the client has closed its
      side, which reads as io.EOF. */
  function At(stream: seq<Recv>, i: nat): Recv {
    if i < |stream| then stream[i] else Eof
  }

  predicate IsChunk(x: Recv) {
    x.Got? && x.msg.ChunkMsg?
  }

  /** How many chunk messages lead the stream. */
  function LeadingChunks(rs: seq<Recv>): (n: nat)
    ensures n <= |rs|
    ensures forall i | 0 <= i < n :: IsChunk(rs[i])
    ensures n < |rs| ==> !IsChunk(rs[n])
  {
    if |rs| == 0 || !IsChunk(rs[0]) then 0 else 1 + LeadingChunks(rs[1..])
  }

  /** The bytes carried by the chunk messages of a stream, in order. */
  function Payload(rs: seq<Recv>): seq<Utf8.byte> {
    if |rs| == 0 then []
    else (if IsChunk(rs[0]) then rs[0].msg.chunk else []) + Payload(rs[1..])
  }

  /** The stream a well-behaved client sends for chunks `cs`. */
  function Wire(cs: seq<seq<Utf8.byte>>): (r: seq<Recv>)
    ensures |r| == |cs|
    ensures forall i | 0 <= i < |cs| :: r[i] == Got(ChunkMsg(cs[i]))
  {
    seq(|cs|, i requires 0 <= i < |cs| => Got(ChunkMsg(cs[i])))
  }

  /** How the receive loop ends: at io.EOF with the bytes written, or on an
      error (after which the partial file is removed). */
  datatype LoopEnd = Finished(data: seq<Utf8.byte>) | Broke(err: ServerError)

  /** The writes numbered `k` up to `k + n` all succeed. */
  predicate WritesOk(writeOk: nat -> bool, k: nat, n: nat) {
    forall j | k <= j < k + n :: writeOk(j)
  }

  /** The receive loop over the messages after the first, `k` chunks
      having been written before `rest`. */
  function ReceiveChunks(rest: seq<Recv>, k: nat, writeOk: nat -> bool): (r: LoopEnd)
    ensures var n := LeadingChunks(rest);
      r.Finished? <==> (n == |rest| || rest[n] == Eof) && WritesOk(writeOk, k, n)
    ensures r.Finished? ==> r.data == Payload(rest[..LeadingChunks(rest)])
    ensures var n := LeadingChunks(rest);
      r == Broke(ChunkRecvFailed) <==> n < |rest| && rest[n] == RecvFailed && WritesOk(writeOk, k, n)
    ensures var n := LeadingChunks(rest);
      r == Broke(NotChunk) <==> n < |rest| && rest[n].Got? && WritesOk(writeOk, k, n)
    ensures r == Broke(WriteFailed) <==> !WritesOk(writeOk, k, LeadingChunks(rest))
    decreases |rest|
  {
    if |rest| == 0 || rest[0] == Eof then Finished([])
    else if rest[0] == RecvFailed then Broke(ChunkRecvFailed)
    else if !rest[0].msg.ChunkMsg? then Broke(NotChunk)
    else if !writeOk(k) then
      assert IsChunk(rest[0]) && LeadingChunks(rest) > 0;
      Broke(WriteFailed)
    else
      var tail := ReceiveChunks(rest[1..], k + 1, writeOk);
      assert LeadingChunks(rest) == 1 + LeadingChunks(rest[1..]);
      assert WritesOk(writeOk, k, LeadingChunks(rest)) <==> WritesOk(writeOk, k + 1, LeadingChunks(rest[1..]));
      assert rest[..LeadingChunks(rest)] == [rest[0]] + rest[1..][..LeadingChunks(rest[1..])];
      if tail.Finished? then Finished(rest[0].msg.chunk + tail.data) else tail
  }

  /** The name a file is stored under: the uuid and the uploaded name's
      extension. */
  function StoredName(uuid: string, fileName: string): string {
    uuid + Ext(fileName)
  }

  /** The rpc `FileUpload`. */
  function ServeUpload(stream: seq<Recv>, env: ServerEnv): (r: ServerOutcome)
    ensures !At(stream, 0).Got? <==> r.result == Err(FirstRecvFailed)
    ensures At(stream, 0).Got? && !At(stream, 0).msg.InfoMsg? <==> r.result == Err(NotInfo)
    ensures r.stored.Some? <==> r.result.Ok? || r.result == Err(SendFailed)
    ensures r.stored.Some? ==>
      && stream[0].Got? && stream[0].msg.InfoMsg?
      && var name := StoredName(env.uuid, stream[0].msg.fileName);
      && var rest := stream[1..];
      && var n := LeadingChunks(rest);
      && r.stored.value.path == JoinPath(UploadDir, name)
      && (n == |rest| || rest[n] == Eof)
      && r.stored.value.data == Payload(rest[..n])
    ensures r.result.Ok? ==>
      r.result.value == UploadResponse(env.uuid, stream[0].msg.fileName,
        "/files/" + StoredName(env.uuid, stream[0].msg.fileName), UploadedMessage)
    ensures r.result == Err(SendFailed) ==> !env.sendOk
  {
    var first := At(stream, 0);
    if !first.Got? then ServerOutcome(Err(FirstRecvFailed), None)
    else if !first.msg.InfoMsg? then ServerOutcome(Err(NotInfo), None)
    else
      var name := StoredName(env.uuid, first.msg.fileName);
      if !env.mkdirOk then ServerOutcome(Err(MkdirFailed), None)
      else
        var path := JoinPath(UploadDir, name);
        if !env.createOk then ServerOutcome(Err(CreateFailed), None)
        else
          match ReceiveChunks(stream[1..], 0, env.writeOk)
          case Broke(e) => ServerOutcome(Err(e), None)
          case Finished(data) =>
            var stored := Some(StoredFile(path, data));
            if !env.sendOk then ServerOutcome(Err(SendFailed), stored)
            else ServerOutcome(Ok(UploadResponse(env.uuid, first.msg.fileName, "/files/" + name, UploadedMessage)), stored)
  }

  lemma {:induction false} LeadingChunksWire(cs: seq<seq<Utf8.byte>>, tail: seq<Recv>)
    requires |tail| == 0 || !IsChunk(tail[0])
    ensures LeadingChunks(Wire(cs) + tail) == |cs|
    ensures Payload(Wire(cs)) == Concat(cs)
  {
    if |cs| > 0 {
      LeadingChunksWire(cs[1..], tail);
      assert (Wire(cs) + tail)[1..] == Wire(cs[1..]) + tail;
      assert Wire(cs)[1..] == Wire(cs[1..]);
    } else {
      assert Wire(cs) + tail == tail;
    }
  }

  /** What a client streams is what the server stores: the file name, then
      chunks, then the end of the stream leave exactly the chunks' bytes on
      disk, and the reply carries the uuid, the name and the file's URL. */
  lemma StreamRoundTrip(fileName: string, cs: seq<seq<Utf8.byte>>, env: ServerEnv)
    requires env.mkdirOk && env.createOk && env.sendOk
    requires forall k :: env.writeOk(k)
    ensures var name := StoredName(env.uuid, fileName);
      ServeUpload([Got(InfoMsg(fileName))] + Wire(cs) + [Eof], env) ==
      ServerOutcome(Ok(UploadResponse(env.uuid, fileName, "/files/" + name, UploadedMessage)),
                    Some(StoredFile(JoinPath(UploadDir, name), Concat(cs))))
  {
    var stream := [Got(InfoMsg(fileName))] + Wire(cs) + [Eof];
    var rest := stream[1..];
    assert rest == Wire(cs) + [Eof];
    LeadingChunksWire(cs, [Eof]);
    assert rest[..|cs|] == Wire(cs);
    assert rest[|cs|] == Eof;
  }

  /** `uuid.New().String()`: 36 lower-case hexadecimal digits and dashes,
      the dashes at positions 8, 13, 18 and 23. */
  predicate IsUuid(s: string) {
    && |s| == 36
    && forall i | 0 <= i < 36 ::
         if i == 8 || i == 13 || i == 18 || i == 23 then s[i] == '-'
         else ('0' <= s[i] <= '9' || 'a' <= s[i] <= 'f')
  }

  /** Whatever name the client supplies, the file is stored directly in the
      upload directory under a name of the server's making. */
  lemma StoredInUploadDir(uuid: string, fileName: string)
    requires IsUuid(uuid)
    ensures var name := StoredName(uuid, fileName);
      Parse(JoinPath(UploadDir, name)) == Path(Parse(UploadDir).rooted, Parse(UploadDir).elems + [name])
      && name[..36] == uuid
  {
    var e := Ext(fileName);
    var name := uuid + e;
    assert Sep !in uuid;
    assert Sep !in name by {
      forall i | 0 <= i < |name|
        ensures name[i] != Sep
      {
        if i >= 36 {
          assert name[i] == e[i - 36];
        }
      }
    }
    assert name[0] == uuid[0];
    PlainName(UploadDir, name);
  }

  /* ---------------- the api side ---------------- */

  /** A posted file part: its name, and its bytes unless opening it fails. */
  datatype FilePart = FilePart(fileName: string, content: Option<seq<Utf8.byte>>)

  /** The client's environment: whether the rpc stream opens, how many
      bytes the k-th `Read` delivers (capped by the buffer and by what is
      left) and whether it fails, whether the k-th `Send` succeeds (the
      file name is send 0), and the server's reply to the messages sent. */
  datatype ClientEnv = ClientEnv(
    streamOk: bool,
    readLen: nat -> nat,
    readFails: nat -> bool,
    sendOk: nat -> bool,
    reply: seq<Msg> -> Result<UploadResponse, string>)

  datatype ClientError =
    | NoFile               // "未找到文件", xerr.ErrFileNotFound
    | OpenFailed
    | StreamFailed
    | SendError
    | ReadFailed
    | CloseFailed(cause: string)

  function Min(a: nat, b: nat): nat {
    if a < b then a else b
  }

  /** The chunks of the messages after the first. */
  function ChunkData(ms: seq<Msg>): (r: seq<seq<Utf8.byte>>)
    requires forall i | 0 <= i < |ms| :: ms[i].ChunkMsg?
    ensures |r| == |ms|
    ensures forall i | 0 <= i < |ms| :: r[i] == ms[i].chunk
  {
    seq(|ms|, i requires 0 <= i < |ms| => ms[i].chunk)
  }

  /** The api `FileUpload`. Besides the answer, the messages it sent. */
  method ClientUpload(files: seq<FilePart>, env: ClientEnv)
    returns (r: Result<UploadResponse, ClientError>, sent: seq<Msg>)
    ensures r == Err(NoFile) <==> |files| == 0
    ensures |files| > 0 ==> (r == Err(OpenFailed) <==> files[0].content.None?)
    ensures |sent| > 0 ==> |files| > 0 && files[0].content.Some? && env.streamOk && sent[0] == InfoMsg(files[0].fileName)
    ensures forall i | 1 <= i < |sent| :: sent[i].ChunkMsg? && 1 <= |sent[i].chunk| <= BufSize
    ensures r.Ok? ==>
      && |sent| > 0
      && var data := Concat(ChunkData(sent[1..]));
      && data <= files[0].content.value
      && ((forall k :: env.readLen(k) > 0) ==> data == files[0].content.value)
      && env.reply(sent).Ok?
      && r.value == env.reply(sent).value
  {
    sent := [];
    if |files| == 0 {
      return Err(NoFile), sent;
    }
    var part := files[0];
    if part.content.None? {
      return Err(OpenFailed), sent;
    }
    var content := part.content.value;
    if !env.streamOk {
      return Err(StreamFailed), sent;
    }
    sent := [InfoMsg(part.fileName)];
    if !env.sendOk(0) {
      return Err(SendError), sent;
    }
    var pos := 0;
    var k := 0;
    while true
      invariant 0 <= pos <= |content|
      invariant |sent| == k + 1 && sent[0] == InfoMsg(part.fileName)
      invariant forall i | 1 <= i < |sent| :: sent[i].ChunkMsg? && 1 <= |sent[i].chunk| <= BufSize
      invariant Concat(ChunkData(sent[1..])) == content[..pos]
      decreases |content| - pos
    {
      if env.readFails(k) {
        return Err(ReadFailed), sent;
      }
      var n := Min(Min(env.readLen(k), BufSize), |content| - pos);
      if n == 0 {
        break;
      }
      var chunk := content[pos..pos + n];
      ghost var before := sent;
      sent := sent + [ChunkMsg(chunk)];
      assert sent[1..] == before[1..] + [ChunkMsg(chunk)];
      assert ChunkData(sent[1..]) == ChunkData(before[1..]) + [chunk];
      ConcatAppend(ChunkData(before[1..]), [chunk]);
      assert Concat([chunk]) == chunk;
      assert content[..pos + n] == content[..pos] + chunk;
      if !env.sendOk(k + 1) {
        return Err(SendError), sent;
      }
      pos := pos + n;
      k := k + 1;
    }
    match env.reply(sent)
    case Err(cause) =>
      return Err(CloseFailed(cause)), sent;
    case Ok(resp) =>
      return Ok(resp), sent;
  }

  /* ---------------- the two together ---------------- */

  /** The messages the client sent, as the server receives them. */
  function ToStream(ms: seq<Msg>): (r: seq<Recv>)
    ensures |r| == |ms|
    ensures forall i | 0 <= i < |ms| :: r[i] == Got(ms[i])
  {
    seq(|ms|, i requires 0 <= i < |ms| => Got(ms[i]))
  }

  /** The server's reply as the client's `CloseAndRecv` sees it. */
  function Answer(o: ServerOutcome): Result<UploadResponse, string> {
    match o.result
    case Ok(v) => Ok(v)
    case Err(_) => Err("rpc FileUpload failed")
  }

  /** An upload end to end: the api streams the posted file to the rpc,
      which answers after the client closes its side. When the upload
      succeeds and no read came back empty early, the file stored is the
      posted file, byte for byte, under the server's name for it. */
  method UploadEndToEnd(fileName: string, content: seq<Utf8.byte>, streamOk: bool, readLen: nat -> nat,
                        readFails: nat -> bool, sendOk: nat -> bool, senv: ServerEnv)
    returns (r: Result<UploadResponse, ClientError>, stored: Option<StoredFile>)
    ensures r.Ok? ==> r.value.fileName == fileName && r.value.fileId == senv.uuid
    ensures r.Ok? ==> stored.Some? && stored.value.path == JoinPath(UploadDir, StoredName(senv.uuid, fileName))
    ensures r.Ok? && (forall k :: readLen(k) > 0) ==> stored.value.data == content
    ensures r.Ok? ==> stored.value.data <= content
  {
    var server := ms => Answer(ServeUpload(ToStream(ms) + [Eof], senv));
    var sent;
    r, sent := ClientUpload([FilePart(fileName, Some(content))], ClientEnv(streamOk, readLen, readFails, sendOk, server));
    if r.Err? {
      return r, None;
    }
    var outcome := ServeUpload(ToStream(sent) + [Eof], senv);
    stored := outcome.stored;
    var cs := ChunkData(sent[1..]);
    var stream := ToStream(sent) + [Eof];
    assert stream == [Got(InfoMsg(fileName))] + Wire(cs) + [Eof];
    LeadingChunksWire(cs, [Eof]);
    assert stream[1..] == Wire(cs) + [Eof];
    assert stream[1..][..|cs|] == Wire(cs);
  }
}
