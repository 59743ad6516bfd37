/** The rpc `GetHistoryData` call (rpc/internal/logic/gethistorydatalogic.go):
    the history rows of a conversation, each with the file references
    listed in its JSON metadata resolved against the files table. */
module History {
  import opened Wrappers
  import opened Xerr

  /** A row of the history table; `metadata` is `None` for SQL NULL.
      `createdAt` is the row's time already written as RFC 3339 text. */
  datatype HistoryRow = HistoryRow(
    messageId: string,
    documentType: string,
    information: string,
    requests: string,
    createdAt: string,
    metadata: Option<string>)

  /** One entry of the metadata array: `{"type": ..., "file_id": ...}`. */
  datatype MetadataRef = MetadataRef(refType: string, fileId: string)

  datatype FileReference = FileReference(fileId: string, filename: string, refFunction: string)

  datatype HistoryItem = HistoryItem(
    messageId: string,
    documentType: string,
    information: string,
    requests: string,
    createdAt: string,
    references: seq<FileReference>)

  datatype HistoryResponse = HistoryResponse(conversationId: string, items: seq<HistoryItem>)

  /** `json.Unmarshal` of the metadata into a list of refs; `None` when it
      fails. */
  type RefDecoder = string -> Option<seq<MetadataRef>>

  /** `FindByStoredName`: the original file name of a stored file, or
      `None` when the lookup fails for any reason. */
  type FileLookup = string -> Option<string>

  /** The name shown for a file the files table no longer knows. */
  const ExpiredName := "文件已过期或不存在"

  /** The two kinds of ref that are shown. */
  predicate Shown(ref: MetadataRef) {
    ref.refType == "file" || ref.refType == "formfile"
  }

  /** A shown ref, resolved: its id, the file's name or the expired name,
      and its kind as the reference's function. */
  function Resolve(ref: MetadataRef, files: FileLookup): (r: FileReference)
    requires Shown(ref)
    ensures r.fileId == ref.fileId && r.refFunction == ref.refType
    ensures files(ref.fileId).Some? ==> r.filename == files(ref.fileId).value
    ensures files(ref.fileId).None? ==> r.filename == ExpiredName
  {
    match files(ref.fileId)
    case Some(name) => FileReference(ref.fileId, name, ref.refType)
    case None => FileReference(ref.fileId, ExpiredName, ref.refType)
  }

  /** The references of a list of refs: the shown ones, resolved, in order;
      every other kind is dropped. */
  function References(refs: seq<MetadataRef>, files: FileLookup): (r: seq<FileReference>)
    ensures |r| <= |refs|
    ensures forall k | 0 <= k < |r| :: r[k].refFunction == "file" || r[k].refFunction == "formfile"
  {
    if |refs| == 0 then []
    else (if Shown(refs[0]) then [Resolve(refs[0], files)] else []) + References(refs[1..], files)
  }

  /** The number of shown refs. */
  function CountShown(refs: seq<MetadataRef>): nat {
    if |refs| == 0 then 0 else (if Shown(refs[0]) then 1 else 0) + CountShown(refs[1..])
  }

  /** The references of a concatenation are the references of its parts:
      resolving one ref never depends on the others, and order is kept. */
  lemma {:induction false} ReferencesAppend(a: seq<MetadataRef>, b: seq<MetadataRef>, files: FileLookup)
    ensures References(a + b, files) == References(a, files) + References(b, files)
  {
    if |a| > 0 {
      assert (a + b)[0] == a[0];
      assert (a + b)[1..] == a[1..] + b;
      ReferencesAppend(a[1..], b, files);
    } else {
      assert a + b == b;
    }
  }

  /** Every shown ref gives exactly one reference, whether or not its file
      is still known. */
  lemma {:induction false} ReferencesCount(refs: seq<MetadataRef>, files: FileLookup)
    ensures |References(refs, files)| == CountShown(refs)
  {
    if |refs| > 0 {
      ReferencesCount(refs[1..], files);
    }
  }

  /** A single shown ref whose file is gone is still listed, under the
      expired name. */
  lemma MissingFileListed(ref: MetadataRef, files: FileLookup)
    requires Shown(ref) && files(ref.fileId).None?
    ensures References([ref], files) == [FileReference(ref.fileId, ExpiredName, ref.refType)]
  {
    assert [ref][1..] == [];
  }

  /** The references of a row: none for NULL or undecodable metadata. */
  function RowReferences(metadata: Option<string>, decode: RefDecoder, files: FileLookup): (r: seq<FileReference>)
    ensures metadata.None? ==> r == []
    ensures metadata.Some? && decode(metadata.value).None? ==> r == []
    ensures metadata.Some? && decode(metadata.value).Some? ==>
      |r| == CountShown(decode(metadata.value).value)
  {
    match metadata
    case None => []
    case Some(json) =>
      match decode(json)
      case None => []
      case Some(refs) =>
        ReferencesCount(refs, files);
        References(refs, files)
  }

  function Item(row: HistoryRow, decode: RefDecoder, files: FileLookup): HistoryItem {
    HistoryItem(row.messageId, row.documentType, row.information, row.requests, row.createdAt,
                RowReferences(row.metadata, decode, files))
  }

  /** `GetHistoryData`. `rows` is the result of the conversation's query:
      its rows in creation order, or `None` when it failed. */
  function GetHistoryData(conversationId: string, rows: Option<seq<HistoryRow>>,
                          decode: RefDecoder, files: FileLookup): (r: Result<HistoryResponse, CodeError>)
    ensures rows.None? <==> r == Err(DbError)
    ensures r.Ok? ==> r.value.conversationId == conversationId
    ensures r.Ok? ==> |r.value.items| == |rows.value|
    ensures r.Ok? ==> forall k | 0 <= k < |rows.value| ::
      var row, item := rows.value[k], r.value.items[k];
      && item.messageId == row.messageId
      && item.documentType == row.documentType
      && item.information == row.information
      && item.requests == row.requests
      && item.createdAt == row.createdAt
      && item.references == RowReferences(row.metadata, decode, files)
  {
    match rows
    case None => Err(DbError)
    case Some(rs) =>
      Ok(HistoryResponse(conversationId, seq(|rs|, k requires 0 <= k < |rs| => Item(rs[k], decode, files))))
  }
}
