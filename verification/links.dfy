/** Signed download links. The rpc `ConvertMarkdownLink`
    (rpc/internal/logic/convertmarkdownlinklogic.go) renders a document,
    stores it under a fresh ULID name and returns a link carrying the name,
    an expiry time and an HMAC of both; the api `PublicDownload`
    (api/internal/logic/agent/publicdownloadlogic.go) serves the file to
    whoever presents such a link before it expires, with no other
    credentials. */
module DownloadLinks {
  import opened Wrappers
  import opened Text
  import Utf8
  import opened Markdown
  import opened FilePath
  import opened UrlCodec

  /** HMAC-SHA256 (RFC 2104 over SHA-256) of a message under a key. */
  type Mac = (seq<Utf8.byte>, seq<Utf8.byte>) -> seq<Utf8.byte>

  /** `signHMAC`: the MAC of the text under the key, in unpadded URL-safe
      base64. */
  function SignHmac(data: string, key: string, mac: Mac): (r: string)
    ensures forall i | 0 <= i < |r| :: IsUrlChar(r[i])
  {
    Base64Url(mac(Utf8.Encode(key), Utf8.Encode(data)))
  }

  /** Two signatures agree exactly when the MACs behind them do. */
  lemma SignatureNamesMac(a: string, b: string, key: string, mac: Mac)
    ensures SignHmac(a, key, mac) == SignHmac(b, key, mac) <==>
      mac(Utf8.Encode(key), Utf8.Encode(a)) == mac(Utf8.Encode(key), Utf8.Encode(b))
  {
    if SignHmac(a, key, mac) == SignHmac(b, key, mac) {
      Base64UrlInjective(mac(Utf8.Encode(key), Utf8.Encode(a)), mac(Utf8.Encode(key), Utf8.Encode(b)));
    }
  }

  /** The signed text: `name|exp`. */
  function SignedText(name: string, exp: int): string {
    name + "|" + Decimal(exp)
  }

  lemma DecimalChars(n: int)
    ensures forall i | 0 <= i < |Decimal(n)| :: IsDigit(Decimal(n)[i]) || Decimal(n)[i] == '-'
  {
  }

  /** The signed text names its file and expiry unambiguously, even when
      the name itself holds a `|`: the expiry is what follows the last one. */
  lemma SignedTextUnambiguous(n1: string, e1: int, n2: string, e2: int)
    requires SignedText(n1, e1) == SignedText(n2, e2)
    ensures n1 == n2 && e1 == e2
  {
    DecimalChars(e1);
    DecimalChars(e2);
    assert '|' !in Decimal(e1) && '|' !in Decimal(e2);
    assert SignedText(n1, e1) == (n1 + "|") + Decimal(e1);
    assert SignedText(n2, e2) == (n2 + "|") + Decimal(e2);
    AfterLastAppend(n1 + "|", Decimal(e1), '|');
    AfterLastAppend(n2 + "|", Decimal(e2), '|');
    DecimalRoundTrip(e1);
    DecimalRoundTrip(e2);
    assert (n1 + "|")[..|n1|] == n1;
    assert (n2 + "|")[..|n2|] == n2;
  }

  /* ---------------- ULID names ---------------- */

  /** The 32 digits of Crockford's base32, as a ULID is written. */
  predicate IsCrockford(c: char) {
    ('0' <= c <= '9') || ('A' <= c <= 'Z' && c != 'I' && c != 'L' && c != 'O' && c != 'U')
  }

  /** A ULID in its canonical text form: 26 Crockford digits. */
  predicate IsUlid(u: string) {
    |u| == 26 && forall i | 0 <= i < |u| :: IsCrockford(u[i])
  }

  function Extension(t: ExportType): string {
    "." + TypeName(t)
  }

  /** A stored export is a ULID and its format's extension: a single plain
      element made of unreserved characters. */
  lemma LinkNamePlain(u: string, t: ExportType)
    requires IsUlid(u)
    ensures var name := u + Extension(t);
      IsElem(name) && name != ".." && '\\' !in name && UnreservedText(name)
  {
    var name := u + Extension(t);
    assert name[0] == u[0];
    assert forall i | 0 <= i < |name| :: i < 26 ==> name[i] == u[i];
  }

  /* ---------------- minting ---------------- */

  datatype LinkConfig = LinkConfig(
    uploadDir: string,      // where the export is written
    expireSeconds: int,     // link lifetime; 600 when not positive
    signKey: string,
    baseUrl: string)

  /** The environment of one call: whether creating the directory and
      writing the file succeed, the ULID drawn, and the current Unix time. */
  datatype LinkEnv = LinkEnv(mkdirOk: bool, writeOk: bool, ulid: string, now: int)

  datatype LinkError = Convert(cause: ConvertError) | MkdirFailed | WriteFailed

  datatype LinkResponse = LinkResponse(filename: string, contentType: string, path: string, url: string)

  /** A minted link, with the file written for it and its expiry. */
  datatype Minted = Minted(response: LinkResponse, file: string, data: seq<Utf8.byte>, exp: int)

  const DefaultExpire := 600

  function Lifetime(expireSeconds: int): (r: int)
    ensures r > 0
    ensures expireSeconds > 0 ==> r == expireSeconds
  {
    if expireSeconds <= 0 then DefaultExpire else expireSeconds
  }

  /** The query of a link. */
  function LinkQuery(name: string, exp: int, sig: string): string {
    "path=" + Escape(name, QueryComponent) + "&exp=" + Decimal(exp) + "&sig=" + sig
  }

  /** `ConvertMarkdownLink`. */
  function ConvertMarkdownLink(typ: string, markdown: string, rr: Renderers, names: seq<string>,
                               mac: Mac, cfg: LinkConfig, env: LinkEnv): (r: Result<Minted, LinkError>)
    requires multiset(names) == multiset(PartNames)
    requires IsUlid(env.ulid)
    ensures ConvertMarkdown(typ, markdown, rr, names).Err? <==> r.Err? && r.error.Convert?
    ensures ConvertMarkdown(typ, markdown, rr, names).Err? ==> r == Err(Convert(ConvertMarkdown(typ, markdown, rr, names).error))
    ensures ConvertMarkdown(typ, markdown, rr, names).Ok? && !env.mkdirOk ==> r == Err(MkdirFailed)
    ensures ConvertMarkdown(typ, markdown, rr, names).Ok? && env.mkdirOk && !env.writeOk ==> r == Err(WriteFailed)
    ensures r.Ok? ==>
      var exported, m := ConvertMarkdown(typ, markdown, rr, names).value, r.value;
      var name := m.response.path;
      && env.mkdirOk && env.writeOk
      && m.response.filename == exported.filename
      && m.response.contentType == exported.contentType
      && m.data == exported.data
      && name == env.ulid + Extension(ParseExportType(typ).value)
      && m.file == JoinPath(cfg.uploadDir, name)
      && m.exp == env.now + Lifetime(cfg.expireSeconds) && m.exp > env.now
      && m.response.url == TrimRightChar(cfg.baseUrl, '/') + "?" +
           LinkQuery(name, m.exp, SignHmac(SignedText(name, m.exp), cfg.signKey, mac))
  {
    match ConvertMarkdown(typ, markdown, rr, names)
    case Err(e) => Err(Convert(e))
    case Ok(exported) =>
      if !env.mkdirOk then Err(MkdirFailed)
      else
        var name := env.ulid + Extension(ParseExportType(typ).value);
        var file := JoinPath(cfg.uploadDir, name);
        if !env.writeOk then Err(WriteFailed)
        else
          var exp := env.now + Lifetime(cfg.expireSeconds);
          var sig := SignHmac(SignedText(name, exp), cfg.signKey, mac);
          var url := TrimRightChar(cfg.baseUrl, '/') + "?" + LinkQuery(name, exp, sig);
          Ok(Minted(LinkResponse(exported.filename, exported.contentType, name, url), file, exported.data, exp))
  }

  /* ---------------- reading a query back ---------------- */

  /** The first value of `key` in a query (`url.Values.Get`), unescaped. */
  function QueryParam(query: string, key: string): Option<string> {
    match FirstParam(Split(query, '&'), key + "=")
    case None => None
    case Some(raw) => UrlCodec.Unescape(raw, QueryComponent)
  }

  /** The text after `prefix` in the first piece that starts with it. */
  function FirstParam(pieces: seq<string>, prefix: string): Option<string> {
    if |pieces| == 0 then None
    else if HasPrefix(pieces[0], prefix) then Some(pieces[0][|prefix|..])
    else FirstParam(pieces[1..], prefix)
  }

  lemma EscapeByteNoAmp(b: Utf8.byte)
    ensures '&' !in EscapeByte(b, QueryComponent)
  {
    if !Kept(b, QueryComponent) && !(b == ' ' as int) {
      var e := EscapeByte(b, QueryComponent);
      assert e == "%" + [HexDigit(b / 16), HexDigit(b % 16)];
    }
  }

  lemma {:induction false} EscapeBytesNoAmp(bs: seq<Utf8.byte>)
    ensures '&' !in EscapeBytes(bs, QueryComponent)
  {
    if |bs| > 0 {
      EscapeByteNoAmp(bs[0]);
      EscapeBytesNoAmp(bs[1..]);
    }
  }

  /** Text that unescapes to itself. */
  lemma UnescapePlain(s: string)
    requires UnreservedText(s)
    ensures UrlCodec.Unescape(s, QueryComponent) == Some(s)
  {
    EscapeUnreserved(s, QueryComponent);
    UrlCodec.UnescapeEscape(s, QueryComponent);
  }

  lemma DecimalPlain(n: int)
    ensures UnreservedText(Decimal(n)) && '&' !in Decimal(n)
  {
    DecimalChars(n);
  }

  lemma QuerySplit(p0: string, p1: string, p2: string)
    requires '&' !in p0 && '&' !in p1 && '&' !in p2
    ensures Split(p0 + "&" + p1 + "&" + p2, '&') == [p0, p1, p2]
  {
    assert p0 + "&" + p1 + "&" + p2 == p0 + ['&'] + (p1 + ['&'] + p2);
    SplitAppend(p0, p1 + ['&'] + p2, '&');
    SplitAppend(p1, p2, '&');
    SplitNoSep(p2, '&');
  }

  lemma FirstOfThree(p0: string, p1: string, p2: string, prefix: string)
    ensures HasPrefix(p0, prefix) ==> FirstParam([p0, p1, p2], prefix) == Some(p0[|prefix|..])
    ensures !HasPrefix(p0, prefix) && HasPrefix(p1, prefix) ==>
      FirstParam([p0, p1, p2], prefix) == Some(p1[|prefix|..])
    ensures !HasPrefix(p0, prefix) && !HasPrefix(p1, prefix) && HasPrefix(p2, prefix) ==>
      FirstParam([p0, p1, p2], prefix) == Some(p2[|prefix|..])
  {
    if !HasPrefix(p0, prefix) {
      assert FirstParam([p0, p1, p2], prefix) == FirstParam([p1, p2], prefix);
      if !HasPrefix(p1, prefix) {
        assert FirstParam([p1, p2], prefix) == FirstParam([p2], prefix);
      }
    }
  }

  /** A link's query gives back the name, the expiry and the signature it
      was made from, whatever the name. */
  lemma LinkQueryRoundTrip(name: string, exp: int, sig: string)
    requires forall i | 0 <= i < |sig| :: IsUrlChar(sig[i])
    ensures QueryParam(LinkQuery(name, exp, sig), "path") == Some(name)
    ensures QueryParam(LinkQuery(name, exp, sig), "exp") == Some(Decimal(exp))
    ensures QueryParam(LinkQuery(name, exp, sig), "sig") == Some(sig)
    ensures ParseDecimal(Decimal(exp)) == Some(exp)
  {
    var p0, p1, p2 := "path=" + Escape(name, QueryComponent), "exp=" + Decimal(exp), "sig=" + sig;
    var q := LinkQuery(name, exp, sig);
    LinkQuerySplit(name, exp, sig);
    assert HasPrefix(p0, "path=") && HasPrefix(p1, "exp=");
    PathParam(q, name, p1, p2);
    ExpParam(q, p0, exp, p2);
    SigParam(q, p0, p1, sig);
    DecimalRoundTrip(exp);
  }

  /** The query splits at '&' into its three pieces. */
  lemma LinkQuerySplit(name: string, exp: int, sig: string)
    requires forall i | 0 <= i < |sig| :: IsUrlChar(sig[i])
    ensures Split(LinkQuery(name, exp, sig), '&') ==
      ["path=" + Escape(name, QueryComponent), "exp=" + Decimal(exp), "sig=" + sig]
  {
    var p0, p1, p2 := "path=" + Escape(name, QueryComponent), "exp=" + Decimal(exp), "sig=" + sig;
    EscapeBytesNoAmp(Utf8.Encode(name));
    DecimalPlain(exp);
    assert LinkQuery(name, exp, sig) == p0 + "&" + p1 + "&" + p2;
    QuerySplit(p0, p1, p2);
  }

  /** A text that starts with one key does not start with a key that
      differs from it in the first character. */
  lemma OtherKey(s: string, a: string, b: string)
    requires HasPrefix(s, a) && |a| > 0 && |b| > 0 && a[0] != b[0]
    ensures !HasPrefix(s, b)
  {
    assert s[..|a|][0] == s[0];
    assert |s| < |b| || s[..|b|][0] == s[0];
  }

  /** The escaped name comes back from the first piece. */
  lemma PathParam(q: string, name: string, p1: string, p2: string)
    requires Split(q, '&') == ["path=" + Escape(name, QueryComponent), p1, p2]
    ensures QueryParam(q, "path") == Some(name)
  {
    var p0 := "path=" + Escape(name, QueryComponent);
    assert HasPrefix(p0, "path=");
    FirstOfThree(p0, p1, p2, "path=");
    assert p0[5..] == Escape(name, QueryComponent);
    UrlCodec.UnescapeEscape(name, QueryComponent);
  }

  /** The decimal expiry comes back from the second piece. */
  lemma ExpParam(q: string, p0: string, exp: int, p2: string)
    requires HasPrefix(p0, "path=")
    requires Split(q, '&') == [p0, "exp=" + Decimal(exp), p2]
    ensures QueryParam(q, "exp") == Some(Decimal(exp))
  {
    var d := Decimal(exp);
    var p1 := "exp=" + d;
    OtherKey(p0, "path=", "exp=");
    assert HasPrefix(p1, "exp=");
    FirstOfThree(p0, p1, p2, "exp=");
    assert p1[4..] == d;
    assert FirstParam(Split(q, '&'), "exp" + "=") == Some(d);
    DecimalPlain(exp);
    UnescapePlain(d);
  }

  /** The signature, already URL-safe, comes back from the third piece. */
  lemma SigParam(q: string, p0: string, p1: string, sig: string)
    requires forall i | 0 <= i < |sig| :: IsUrlChar(sig[i])
    requires HasPrefix(p0, "path=") && HasPrefix(p1, "exp=")
    requires Split(q, '&') == [p0, p1, "sig=" + sig]
    ensures QueryParam(q, "sig") == Some(sig)
  {
    var p2 := "sig=" + sig;
    OtherKey(p0, "path=", "sig=");
    OtherKey(p1, "exp=", "sig=");
    assert HasPrefix(p2, "sig=");
    FirstOfThree(p0, p1, p2, "sig=");
    assert p2[4..] == sig;
    assert "sig" + "=" == "sig=";
    assert FirstParam(Split(q, '&'), "sig" + "=") == Some(sig);
    UrlCharsUnreserved(sig);
    UnescapePlain(sig);
  }

  /* ---------------- downloading ---------------- */

  datatype DownloadConfig = DownloadConfig(uploadDir: string, signKey: string)

  datatype DownloadOutcome =
    | LinkExpired                        // 403 "link expired"
    | InvalidSignature                   // 403 "invalid signature"
    | InvalidPath                        // 400 "invalid path"
    | OpenFailed                         // the open error is returned
    | Download(contentType: string, disposition: string, name: string, body: seq<Utf8.byte>)

  datatype DownloadReply = DownloadReply(outcome: DownloadOutcome, openPath: Option<string>)

  /** The path check: the parameter must be its own cleaned base name and
      hold no slash or backslash. */
  predicate NameAccepted(p: string) {
    var name := Base(Clean(p));
    name == p && Sep !in name && '\\' !in name
  }

  /** Exactly the single elements pass the path check, "." and ".." among
      them (both name directories). */
  lemma NameCheck(p: string)
    ensures NameAccepted(p) <==> p == "." || (IsElem(p) && '\\' !in p)
  {
    if p == "." {
      DotElement();
    } else if IsElem(p) && '\\' !in p {
      OneElement(p);
    }
  }

  const OctetStream := "application/octet-stream"

  /** `PublicDownload`. `now` is the current Unix time, `fs` opens and
      reads a file (`None` when opening fails) and `mime` is
      `mime.TypeByExtension`. */
  function PublicDownload(p: string, exp: int, sig: string, now: int, mac: Mac, cfg: DownloadConfig,
                          fs: string -> Option<seq<Utf8.byte>>, mime: string -> string): (r: DownloadReply)
    ensures r.outcome == LinkExpired <==> now > exp
    ensures r.outcome == InvalidSignature <==> now <= exp && sig != SignHmac(SignedText(p, exp), cfg.signKey, mac)
    ensures r.outcome == InvalidPath <==>
      now <= exp && sig == SignHmac(SignedText(p, exp), cfg.signKey, mac) && !(p == "." || (IsElem(p) && '\\' !in p))
    ensures r.openPath.Some? <==>
      now <= exp && sig == SignHmac(SignedText(p, exp), cfg.signKey, mac) && (p == "." || (IsElem(p) && '\\' !in p))
    ensures r.openPath.Some? ==> r.openPath.value == JoinPath(cfg.uploadDir, p)
    ensures r.outcome.Download? ==>
      && r.openPath.Some? && fs(r.openPath.value) == Some(r.outcome.body)
      && r.outcome.name == p
      && r.outcome.contentType != ""
      && (mime(Ext(p)) != "" ==> r.outcome.contentType == mime(Ext(p)))
      && (mime(Ext(p)) == "" ==> r.outcome.contentType == OctetStream)
      && r.outcome.disposition == "attachment; filename=\"" + Escape(p, PathSegment) + "\""
    ensures r.openPath.Some? ==> (fs(r.openPath.value).None? <==> r.outcome == OpenFailed)
  {
    if now > exp then DownloadReply(LinkExpired, None)
    else if sig != SignHmac(SignedText(p, exp), cfg.signKey, mac) then DownloadReply(InvalidSignature, None)
    else
      NameCheck(p);
      if !NameAccepted(p) then DownloadReply(InvalidPath, None)
      else
        var abs := JoinPath(cfg.uploadDir, p);
        match fs(abs)
        case None => DownloadReply(OpenFailed, Some(abs))
        case Some(body) =>
          var ctype := if mime(Ext(p)) == "" then OctetStream else mime(Ext(p));
          DownloadReply(Download(ctype, "attachment; filename=\"" + Escape(p, PathSegment) + "\"", p, body), Some(abs))
  }

  /** A minted link works: before it expires, with the same key and upload
      directory on both sides, the values read back from its query pass
      every check and open exactly the file that was written. */
  lemma MintThenDownload(typ: string, markdown: string, rr: Renderers, names: seq<string>,
                         mac: Mac, cfg: LinkConfig, env: LinkEnv, m: Minted,
                         now: int, fs: string -> Option<seq<Utf8.byte>>, mime: string -> string)
    requires multiset(names) == multiset(PartNames)
    requires IsUlid(env.ulid)
    requires ConvertMarkdownLink(typ, markdown, rr, names, mac, cfg, env) == Ok(m)
    requires now <= m.exp
    ensures var query := m.response.url[|TrimRightChar(cfg.baseUrl, '/')| + 1..];
      && |TrimRightChar(cfg.baseUrl, '/')| < |m.response.url|
      && QueryParam(query, "path") == Some(m.response.path)
      && QueryParam(query, "exp") == Some(Decimal(m.exp))
      && QueryParam(query, "sig").Some?
      && PublicDownload(m.response.path, m.exp, QueryParam(query, "sig").value, now, mac,
                        DownloadConfig(cfg.uploadDir, cfg.signKey), fs, mime).openPath == Some(m.file)
  {
    MintedFacts(typ, markdown, rr, names, mac, cfg, env, m);
    LinkNamePlain(env.ulid, ParseExportType(typ).value);
    MintedOpens(m, now, mac, cfg, fs, mime);
  }

  /** A minted record whose path is a plain element and whose link was
      signed and built as `ConvertMarkdownLink` builds it opens its file. */
  lemma MintedOpens(m: Minted, now: int, mac: Mac, cfg: LinkConfig,
                    fs: string -> Option<seq<Utf8.byte>>, mime: string -> string)
    requires IsElem(m.response.path) && '\\' !in m.response.path
    requires m.file == JoinPath(cfg.uploadDir, m.response.path)
    requires m.response.url == TrimRightChar(cfg.baseUrl, '/') + "?" +
      LinkQuery(m.response.path, m.exp, SignHmac(SignedText(m.response.path, m.exp), cfg.signKey, mac))
    requires now <= m.exp
    ensures var query := m.response.url[|TrimRightChar(cfg.baseUrl, '/')| + 1..];
      && |TrimRightChar(cfg.baseUrl, '/')| < |m.response.url|
      && QueryParam(query, "path") == Some(m.response.path)
      && QueryParam(query, "exp") == Some(Decimal(m.exp))
      && QueryParam(query, "sig").Some?
      && PublicDownload(m.response.path, m.exp, QueryParam(query, "sig").value, now, mac,
                        DownloadConfig(cfg.uploadDir, cfg.signKey), fs, mime).openPath == Some(m.file)
  {
    var sig := SignHmac(SignedText(m.response.path, m.exp), cfg.signKey, mac);
    LinkOpens(m.response.path, m.exp, sig, TrimRightChar(cfg.baseUrl, '/'), m.response.url, m.file, now, mac, cfg, fs, mime);
  }

  /** What a minted link is made of, read off `ConvertMarkdownLink`. */
  lemma MintedFacts(typ: string, markdown: string, rr: Renderers, names: seq<string>,
                    mac: Mac, cfg: LinkConfig, env: LinkEnv, m: Minted)
    requires multiset(names) == multiset(PartNames)
    requires IsUlid(env.ulid)
    requires ConvertMarkdownLink(typ, markdown, rr, names, mac, cfg, env) == Ok(m)
    ensures ParseExportType(typ).Some?
    ensures m.response.path == env.ulid + Extension(ParseExportType(typ).value)
    ensures m.file == JoinPath(cfg.uploadDir, m.response.path)
    ensures m.response.url == TrimRightChar(cfg.baseUrl, '/') + "?" +
      LinkQuery(m.response.path, m.exp, SignHmac(SignedText(m.response.path, m.exp), cfg.signKey, mac))
  {
  }

  lemma LinkOpens(name: string, exp: int, sig: string, base: string, url: string, file: string,
                  now: int, mac: Mac, cfg: LinkConfig, fs: string -> Option<seq<Utf8.byte>>, mime: string -> string)
    requires IsElem(name) && '\\' !in name
    requires sig == SignHmac(SignedText(name, exp), cfg.signKey, mac)
    requires url == base + "?" + LinkQuery(name, exp, sig)
    requires file == JoinPath(cfg.uploadDir, name)
    requires now <= exp
    ensures var query := url[|base| + 1..];
      && |base| < |url|
      && QueryParam(query, "path") == Some(name)
      && QueryParam(query, "exp") == Some(Decimal(exp))
      && QueryParam(query, "sig").Some?
      && PublicDownload(name, exp, QueryParam(query, "sig").value, now, mac,
                        DownloadConfig(cfg.uploadDir, cfg.signKey), fs, mime).openPath == Some(file)
  {
    assert url[|base| + 1..] == LinkQuery(name, exp, sig);
    LinkQueryRoundTrip(name, exp, sig);
  }

}
