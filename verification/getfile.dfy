/** The api `GetFile` handler (api/internal/logic/file/getFileLogic.go):
    streams a file stored under the upload directory, after confining the
    requested path to that directory. */
module GetFileApi {
  import opened Wrappers
  import opened Text
  import Utf8
  import opened FilePath

  /** What opening and then statting a path finds. */
  datatype Found =
    | Missing                            // open fails with "does not exist"
    | OpenFailed                         // open fails otherwise
    | StatFailed
    | Directory
    | RegularFile(data: seq<Utf8.byte>)

  type FileSystem = string -> Found

  /** `mime.TypeByExtension`; "" for an unknown extension. */
  type MimeTable = string -> string

  /** `http.DetectContentType`. */
  type Sniffer = seq<Utf8.byte> -> string

  datatype Outcome =
    | MissingPath                        // 400 "missing path"
    | InvalidPath                        // 403 "invalid path"
    | NotFound                           // 404
    | OpenError                          // 500, the open error is returned
    | StatError                          // 500, the stat error is returned
    | NotAFile                           // 400 "not a file"
    | Served(contentType: string, cacheControl: string, contentLength: string, body: seq<Utf8.byte>)

  /** The outcome, and the path handed to `os.Open` if it was reached. */
  datatype Reply = Reply(outcome: Outcome, openPath: Option<string>)

  function Status(o: Outcome): int {
    match o
    case MissingPath => 400
    case InvalidPath => 403
    case NotFound => 404
    case OpenError => 500
    case StatError => 500
    case NotAFile => 400
    case Served(_, _, _, _) => 200
  }

  const Slashes: set<char> := {'/', '\\'}
  const CacheForever := "public, max-age=31536000"
  /** At most this many leading bytes are sniffed. */
  const SniffLen := 512

  /** The cleaned request path, relative: leading slashes and backslashes
      are cut first so that joining cannot restart at the root. */
  function Relative(reqPath: string): (r: string)
    ensures !Parse(r).rooted
  {
    var t := TrimLeftSet(reqPath, Slashes);
    assert |t| > 0 ==> t[0] != Sep;
    ParseClean(t);
    Clean(t)
  }

  /** The file a request names: the request path below the cleaned base. */
  function Target(baseDir: string, reqPath: string): string {
    JoinPath(Clean(baseDir), Relative(reqPath))
  }

  /** The traversal guard: `Rel` from the base must succeed and must not
      start with "..". */
  predicate Admitted(baseDir: string, full: string) {
    var rc := Rel(Clean(baseDir), full);
    rc.Some? && !HasPrefix(rc.value, "..")
  }

  function ContentType(full: string, data: seq<Utf8.byte>, mime: MimeTable, sniff: Sniffer): string {
    var ct := mime(Ext(full));
    if ct != "" then ct
    else sniff(data[..if |data| < SniffLen then |data| else SniffLen])
  }

  /** `GetFile`. Whatever the request, a path is opened only if it lies
      inside the base directory. */
  function GetFile(baseDir: string, reqPath: string, fs: FileSystem, mime: MimeTable, sniff: Sniffer): (r: Reply)
    ensures r.outcome == MissingPath <==> reqPath == ""
    ensures r.openPath.Some? ==> r.openPath.value == Target(baseDir, reqPath) && Inside(r.openPath.value, baseDir)
    ensures r.outcome == InvalidPath <==> reqPath != "" && !Admitted(baseDir, Target(baseDir, reqPath))
    ensures r.openPath.Some? <==> reqPath != "" && Admitted(baseDir, Target(baseDir, reqPath))
    ensures r.outcome.Served? ==>
      && fs(r.openPath.value).RegularFile?
      && r.outcome.body == fs(r.openPath.value).data
      && ParseDecimal(r.outcome.contentLength) == Some(|r.outcome.body|)
      && r.outcome.cacheControl == CacheForever
    ensures r.openPath.Some? ==>
      (fs(r.openPath.value) == Missing <==> r.outcome == NotFound) &&
      (fs(r.openPath.value) == Directory <==> r.outcome == NotAFile) &&
      (fs(r.openPath.value).RegularFile? <==> r.outcome.Served?)
  {
    if reqPath == "" then Reply(MissingPath, None)
    else
      var base := Clean(baseDir);
      var full := Target(baseDir, reqPath);
      if !Admitted(baseDir, full) then Reply(InvalidPath, None)
      else
        RelInside(base, full);
        ParseRender(Parse(baseDir));
        Reply(Respond(full, fs(full), mime, sniff), Some(full))
  }

  /** What the handler answers once `full` is opened and statted. */
  function Respond(full: string, found: Found, mime: MimeTable, sniff: Sniffer): (o: Outcome)
    ensures o.Served? <==> found.RegularFile?
    ensures o.Served? ==>
      && o.body == found.data
      && ParseDecimal(o.contentLength) == Some(|o.body|)
      && o.cacheControl == CacheForever
    ensures found == Missing <==> o == NotFound
    ensures found == Directory <==> o == NotAFile
  {
    if found.RegularFile? then
      DecimalRoundTrip(|found.data|);
      Served(ContentType(full, found.data, mime, sniff), CacheForever, Decimal(|found.data|), found.data)
    else if found == Missing then NotFound
    else if found == OpenFailed then OpenError
    else if found == StatFailed then StatError
    else NotAFile
  }

  /** An element of the request below the base is kept as is. */
  lemma TargetElems(baseDir: string, reqPath: string)
    requires NoParent(Parse(TrimLeftSet(reqPath, Slashes)).elems)
    ensures Parse(Target(baseDir, reqPath)) ==
      Path(Parse(baseDir).rooted, Parse(baseDir).elems + Parse(TrimLeftSet(reqPath, Slashes)).elems)
  {
    var t := TrimLeftSet(reqPath, Slashes);
    ParseRender(Parse(t));
    ParseRender(Parse(baseDir));
    JoinBelow(Clean(baseDir), Relative(reqPath));
  }

  /** The guard admits every ordinary request: one whose elements never
      climb and whose first element does not itself begin with "..". The
      file opened is the base's elements followed by the request's. */
  lemma OrdinaryAdmitted(baseDir: string, reqPath: string, fs: FileSystem, mime: MimeTable, sniff: Sniffer)
    requires reqPath != ""
    requires var es := Parse(TrimLeftSet(reqPath, Slashes)).elems;
      NoParent(es) && (|es| == 0 || !HasPrefix(es[0], ".."))
    ensures GetFile(baseDir, reqPath, fs, mime, sniff).openPath == Some(Target(baseDir, reqPath))
    ensures Parse(Target(baseDir, reqPath)) ==
      Path(Parse(baseDir).rooted, Parse(baseDir).elems + Parse(TrimLeftSet(reqPath, Slashes)).elems)
  {
    var base, full := Clean(baseDir), Target(baseDir, reqPath);
    TargetElems(baseDir, reqPath);
    ParseRender(Parse(baseDir));
    AdmitBelow(base, full, Parse(TrimLeftSet(reqPath, Slashes)).elems);
  }

  /** `Rel` from a base to a path with further, non-climbing elements below
      it answers without "..", unless the first of them begins with "..". */
  lemma AdmitBelow(base: string, full: string, es: seq<string>)
    requires Parse(full) == Path(Parse(base).rooted, Parse(base).elems + es)
    requires NoParent(es) && (|es| == 0 || !HasPrefix(es[0], ".."))
    ensures Rel(base, full).Some? && !HasPrefix(Rel(base, full).value, "..")
  {
    if |es| == 0 {
      assert Parse(base).elems + es == Parse(base).elems;
      CleanSame(base, full);
    } else {
      var n := |Parse(base).elems|;
      assert Parse(full).elems[..n] == Parse(base).elems;
      assert Parse(full).elems[n..] == es;
      RelBelow(base, full);
      JoinHead(es, "/");
      var j := Join(es, "/");
      assert es[0] == Parse(full).elems[n];
      assert IsElem(es[0]);
      if |es[0]| == 1 {
        assert es[0][0] != '.';
        assert j[0] == es[0][0];
      } else {
        assert j[..2] == es[0][..2];
      }
    }
  }

  /** The guard's false alarm: a name below the base that merely begins
      with ".." (say "..config") is refused, since its `Rel` answer begins
      with "..". */
  lemma DotDotNameRefused(baseDir: string, reqPath: string, fs: FileSystem, mime: MimeTable, sniff: Sniffer)
    requires reqPath != ""
    requires var es := Parse(TrimLeftSet(reqPath, Slashes)).elems;
      NoParent(es) && |es| > 0 && HasPrefix(es[0], "..")
    ensures GetFile(baseDir, reqPath, fs, mime, sniff).outcome == InvalidPath
  {
    var es := Parse(TrimLeftSet(reqPath, Slashes)).elems;
    var base, full := Clean(baseDir), Target(baseDir, reqPath);
    TargetElems(baseDir, reqPath);
    ParseRender(Parse(baseDir));
    assert Parse(full).elems[..|Parse(base).elems|] == Parse(base).elems;
    assert Parse(full).elems[|Parse(base).elems|..] == es;
    RelBelow(base, full);
    JoinHead(es, "/");
    assert Join(es, "/")[..2] == es[0][..2];
  }

  /** Leading slashes and backslashes make no difference: an absolute
      request names a file below the base, never the absolute path. */
  lemma LeadingSlashIgnored(baseDir: string, p: string, fs: FileSystem, mime: MimeTable, sniff: Sniffer)
    requires p != ""
    ensures GetFile(baseDir, "/" + p, fs, mime, sniff) == GetFile(baseDir, p, fs, mime, sniff)
    ensures GetFile(baseDir, "\\" + p, fs, mime, sniff) == GetFile(baseDir, p, fs, mime, sniff)
  {
    SlashCut('/', p);
    SlashCut('\\', p);
    SameTarget(baseDir, "/" + p, p, fs, mime, sniff);
    SameTarget(baseDir, "\\" + p, p, fs, mime, sniff);
  }

  /** A leading slash or backslash is cut before cleaning. */
  lemma SlashCut(c: char, p: string)
    requires c in Slashes
    ensures Relative([c] + p) == Relative(p)
  {
    assert ([c] + p)[1..] == p;
  }

  /** The answer depends on a non-empty request path only through the file
      it names. */
  lemma SameTarget(baseDir: string, a: string, b: string, fs: FileSystem, mime: MimeTable, sniff: Sniffer)
    requires a != "" && b != "" && Relative(a) == Relative(b)
    ensures GetFile(baseDir, a, fs, mime, sniff) == GetFile(baseDir, b, fs, mime, sniff)
  {
  }
}
