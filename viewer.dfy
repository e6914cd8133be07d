/** `buildOnlyOfficeUrl` (tests/docx-compat/run-tests.ts): the document-server viewer URL
    for one corpus file. The file-server URL travels as a query value, so it is
    percent-encoded once more on top of the encoding of the file name inside it. */
module Viewer {
  import opened Wrappers
  import opened Text
  import opened PosixPath
  import opened UriEncoding

  const EditorPath := "/web-apps/apps/documenteditor/main/index.html"
  const FileServerHost := "http://127.0.0.1:"

  datatype Param = Param(name: string, value: string)

  function RenderParam(p: Param): string {
    p.name + "=" + p.value
  }

  function RenderParams(ps: seq<Param>): seq<string> {
    if ps == [] then [] else [RenderParam(ps[0])] + RenderParams(ps[1..])
  }

  /** `name=value` pairs glued with `&`. */
  function RenderQuery(ps: seq<Param>): string {
    Join(RenderParams(ps), "&")
  }

  /** Reading a query string back: pieces at `&`, each split at its first `=`. */
  function ParseParam(piece: string): Param {
    var parts := Split(piece, '=');
    Param(parts[0], Join(parts[1..], "="))
  }

  function ParseQuery(q: string): seq<Param> {
    ParsePieces(Split(q, '&'))
  }

  function ParsePieces(pieces: seq<string>): seq<Param> {
    if pieces == [] then [] else [ParseParam(pieces[0])] + ParsePieces(pieces[1..])
  }

  /** The URL of a corpus file on the runner's file server. */
  function FileServerUrl(port: nat, filename: string): string {
    FileServerHost + NatToString(port) + "/" + EncodeUriComponent(filename)
  }

  /** The file type the viewer is told: the extension without its dot, lower-cased. */
  function FileType(filename: string): string {
    var ext := ExtName(filename);
    Lower(if ext == [] then [] else ext[1..])
  }

  /** `buildOnlyOfficeUrl(filename)`; `now` is `Date.now()`. */
  function BuildOnlyOfficeUrl(ooUrl: string, port: nat, filename: string, now: nat): string {
    var docUrl := EncodeUriComponent(FileServerUrl(port, filename));
    var ext := FileType(filename);
    var key := EncodeUriComponent(filename + NatToString(now));
    ViewerUrl(ooUrl, ext, key, docUrl)
  }

  /** The URL template, once the three computed values are known. */
  function ViewerUrl(ooUrl: string, ext: string, key: string, docUrl: string): string {
    ooUrl + EditorPath
    + "?formsDataUrl="
    + "&fileType=" + ext
    + "&documentType=word"
    + "&key=" + key
    + "&url=" + docUrl
    + "&mode=view"
    + "&lang=en"
  }

  /** The parameters the template carries, in order. */
  function TemplateParams(ext: string, key: string, docUrl: string): seq<Param> {
    [Param("formsDataUrl", ""),
     Param("fileType", ext),
     Param("documentType", "word"),
     Param("key", key),
     Param("url", docUrl),
     Param("mode", "view"),
     Param("lang", "en")]
  }

  function ViewerParams(port: nat, filename: string, now: nat): seq<Param> {
    TemplateParams(FileType(filename), EncodeUriComponent(filename + NatToString(now)),
                   EncodeUriComponent(FileServerUrl(port, filename)))
  }

  // ---------------------------------------------------------------- lemmas

  /** No name holds `&` or `=`, no value holds `&`. */
  predicate WellFormed(ps: seq<Param>) {
    forall i :: 0 <= i < |ps| ==> '&' !in ps[i].name && '=' !in ps[i].name && '&' !in ps[i].value
  }

  lemma {:induction false} RenderParamsFree(ps: seq<Param>)
    requires WellFormed(ps)
    ensures |RenderParams(ps)| == |ps|
    ensures NoneContain(RenderParams(ps), '&')
  {
    if ps != [] {
      RenderParamsFree(ps[1..]);
      var p := ps[0];
      assert RenderParam(p) == p.name + ['='] + p.value;
      assert '&' !in RenderParam(p);
    }
  }

  lemma ParseRenderParam(p: Param)
    requires '=' !in p.name
    ensures ParseParam(RenderParam(p)) == p
  {
    SplitCons(p.name, '=', p.value);
    JoinSplit(p.value, '=');
    assert RenderParam(p) == p.name + ['='] + p.value;
  }

  lemma {:induction false} ParsePiecesRender(ps: seq<Param>)
    requires WellFormed(ps)
    ensures ParsePieces(RenderParams(ps)) == ps
  {
    if ps != [] {
      ParseRenderParam(ps[0]);
      ParsePiecesRender(ps[1..]);
    }
  }

  /** Parsing a rendered query gives the parameters back, provided no name holds `&` or `=`
      and no value holds `&`. */
  lemma ParseRenderQuery(ps: seq<Param>)
    requires ps != [] && WellFormed(ps)
    ensures ParseQuery(RenderQuery(ps)) == ps
  {
    RenderParamsFree(ps);
    SplitJoin(RenderParams(ps), '&');
    ParsePiecesRender(ps);
  }

  lemma {:induction false} RenderParamsAppend(a: seq<Param>, b: seq<Param>)
    ensures RenderParams(a + b) == RenderParams(a) + RenderParams(b)
  {
    if a == [] {
      assert a + b == b;
    } else {
      assert (a + b)[1..] == a[1..] + b;
      RenderParamsAppend(a[1..], b);
    }
  }

  /** Appending a parameter appends `&name=value`. */
  lemma RenderQuerySnoc(ps: seq<Param>, p: Param)
    requires ps != []
    ensures RenderQuery(ps + [p]) == RenderQuery(ps) + "&" + RenderParam(p)
  {
    RenderParamsAppend(ps, [p]);
    assert RenderParams([p]) == [RenderParam(p)];
    JoinAppend(RenderParams(ps), [RenderParam(p)], "&");
  }

  /** One more parameter of the template whose value is computed: `lead` is `&name=`. */
  lemma QueryStepValue(pre: string, ps: seq<Param>, k: nat, x: string, lead: string)
    requires 1 <= k < |ps| && pre + RenderQuery(ps[..k]) == x
    requires lead == "&" + ps[k].name + "="
    ensures pre + RenderQuery(ps[..k + 1]) == x + lead + ps[k].value
  {
    assert ps[..k + 1] == ps[..k] + [ps[k]];
    RenderQuerySnoc(ps[..k], ps[k]);
  }

  /** One more parameter of the template written out whole: `piece` is `&name=value`. */
  lemma QueryStepFixed(pre: string, ps: seq<Param>, k: nat, x: string, piece: string)
    requires 1 <= k < |ps| && pre + RenderQuery(ps[..k]) == x
    requires piece == "&" + ps[k].name + "=" + ps[k].value
    ensures pre + RenderQuery(ps[..k + 1]) == x + piece
  {
    assert ps[..k + 1] == ps[..k] + [ps[k]];
    RenderQuerySnoc(ps[..k], ps[k]);
  }

  lemma QueryFirst(pre: string, ps: seq<Param>)
    requires ps != [] && ps[0] == Param("formsDataUrl", "")
    ensures pre + RenderQuery(ps[..1]) == pre + "formsDataUrl="
  {
    assert ps[..1] == [ps[0]];
    assert RenderParams([ps[0]]) == [RenderParam(ps[0])];
  }

  /** The separators and fixed parameters of the template, spelt out. */
  lemma TemplatePieces()
    ensures "&fileType=" == "&" + "fileType" + "=" && "&key=" == "&" + "key" + "="
    ensures "&url=" == "&" + "url" + "="
    ensures "&documentType=word" == "&" + "documentType" + "=" + "word"
    ensures "&mode=view" == "&" + "mode" + "=" + "view" && "&lang=en" == "&" + "lang" + "=" + "en"
  {
  }

  /** The template up to the key. */
  lemma TemplateHead(ooUrl: string, ext: string, key: string, docUrl: string)
    ensures ooUrl + EditorPath + "?" + RenderQuery(TemplateParams(ext, key, docUrl)[..4])
            == ooUrl + EditorPath + "?formsDataUrl=" + "&fileType=" + ext + "&documentType=word" + "&key=" + key
  {
    var ps := TemplateParams(ext, key, docUrl);
    var pre := ooUrl + EditorPath + "?";
    TemplatePieces();
    QueryFirst(pre, ps);
    var x0 := ooUrl + EditorPath + "?formsDataUrl=";
    assert pre + "formsDataUrl=" == x0;
    QueryStepValue(pre, ps, 1, x0, "&fileType=");
    var x1 := x0 + "&fileType=" + ext;
    QueryStepFixed(pre, ps, 2, x1, "&documentType=word");
    var x2 := x1 + "&documentType=word";
    QueryStepValue(pre, ps, 3, x2, "&key=");
  }

  /** The template is the editor page with the seven parameters as its query. */
  lemma TemplateIsQuery(ooUrl: string, ext: string, key: string, docUrl: string)
    ensures ViewerUrl(ooUrl, ext, key, docUrl)
            == ooUrl + EditorPath + "?" + RenderQuery(TemplateParams(ext, key, docUrl))
  {
    var ps := TemplateParams(ext, key, docUrl);
    var pre := ooUrl + EditorPath + "?";
    TemplatePieces();
    TemplateHead(ooUrl, ext, key, docUrl);
    var x3 := ooUrl + EditorPath + "?formsDataUrl=" + "&fileType=" + ext + "&documentType=word" + "&key=" + key;
    QueryStepValue(pre, ps, 4, x3, "&url=");
    var x4 := x3 + "&url=" + docUrl;
    QueryStepFixed(pre, ps, 5, x4, "&mode=view");
    var x5 := x4 + "&mode=view";
    QueryStepFixed(pre, ps, 6, x5, "&lang=en");
    assert ps[..7] == ps;
  }

  /** The viewer URL is the editor page with the seven viewer parameters as its query. */
  lemma BuildIsQuery(ooUrl: string, port: nat, filename: string, now: nat)
    ensures BuildOnlyOfficeUrl(ooUrl, port, filename, now)
            == ooUrl + EditorPath + "?" + RenderQuery(ViewerParams(port, filename, now))
  {
    TemplateIsQuery(ooUrl, FileType(filename), EncodeUriComponent(filename + NatToString(now)),
                    EncodeUriComponent(FileServerUrl(port, filename)));
  }

  /** Each template parameter reads back, provided no value holds `&`. */
  lemma TemplateRoundTrip(ext: string, key: string, docUrl: string)
    requires '&' !in ext && '&' !in key && '&' !in docUrl
    ensures ParseQuery(RenderQuery(TemplateParams(ext, key, docUrl))) == TemplateParams(ext, key, docUrl)
  {
    TemplateWellFormed(ext, key, docUrl);
    ParseRenderQuery(TemplateParams(ext, key, docUrl));
  }

  lemma TemplateWellFormed(ext: string, key: string, docUrl: string)
    requires '&' !in ext && '&' !in key && '&' !in docUrl
    ensures WellFormed(TemplateParams(ext, key, docUrl))
  {
    var ps := TemplateParams(ext, key, docUrl);
    forall i | 0 <= i < |ps|
      ensures '&' !in ps[i].name && '=' !in ps[i].name && '&' !in ps[i].value
    {
      var name := ps[i].name;
      assert forall j :: 0 <= j < |name| ==> name[j] != '&' && name[j] != '=';
    }
  }

  /** What a reader of the template recovers when the key and the document URL are
      percent-encoded and the file type holds no `&`. */
  lemma TemplateContents(ext: string, rawKey: string, rawUrl: string)
    requires '&' !in ext
    ensures var ps := ParseQuery(RenderQuery(TemplateParams(ext, EncodeUriComponent(rawKey),
                                                            EncodeUriComponent(rawUrl))));
            |ps| == 7
            && ps[1] == Param("fileType", ext)
            && ps[2] == Param("documentType", "word")
            && ps[5] == Param("mode", "view") && ps[6] == Param("lang", "en")
            && ps[3].name == "key" && DecodeUriComponent(ps[3].value) == Some(rawKey)
            && ps[4].name == "url" && DecodeUriComponent(ps[4].value) == Some(rawUrl)
  {
    EncodeHasNoDelimiters(rawKey);
    EncodeHasNoDelimiters(rawUrl);
    TemplateRoundTrip(ext, EncodeUriComponent(rawKey), EncodeUriComponent(rawUrl));
    DecodeEncode(rawKey);
    DecodeEncode(rawUrl);
  }

  /** What a reader of the viewer URL recovers: a fixed document type, view mode and
      language, the lower-cased extension as file type, the key (file name and time stamp)
      and, decoded once, the file server's URL for the file. Holds whenever the extension
      contains no `&`: the file type is the one value that is not encoded. */
  lemma ViewerUrlContents(port: nat, filename: string, now: nat)
    requires '&' !in FileType(filename)
    ensures var ps := ParseQuery(RenderQuery(ViewerParams(port, filename, now)));
            |ps| == 7
            && ps[1] == Param("fileType", FileType(filename))
            && ps[2] == Param("documentType", "word")
            && ps[5] == Param("mode", "view") && ps[6] == Param("lang", "en")
            && ps[3].name == "key" && DecodeUriComponent(ps[3].value) == Some(filename + NatToString(now))
            && ps[4].name == "url" && DecodeUriComponent(ps[4].value) == Some(FileServerUrl(port, filename))
  {
    TemplateContents(FileType(filename), filename + NatToString(now), FileServerUrl(port, filename));
  }

  /** Decoding the file-server URL a second time gives the plain file name after the host
      and port: the server receives the name encoded exactly once. */
  lemma DecodeFileServerUrl(port: nat, filename: string)
    ensures DecodeUriComponent(FileServerUrl(port, filename))
            == Some(FileServerHost + NatToString(port) + "/" + filename)
  {
    var prefix := FileServerHost + NatToString(port) + "/";
    PrefixPlain(port);
    DecodeEncode(filename);
    DecodePrefix(prefix, EncodeUriComponent(filename));
  }

  lemma PrefixPlain(port: nat)
    ensures '%' !in FileServerHost + NatToString(port) + "/"
  {
    var digits := NatToString(port);
    assert '%' !in FileServerHost;
    assert forall i :: 0 <= i < |digits| ==> digits[i] != '%';
  }

  lemma {:induction false} DecodePrefix(prefix: string, rest: string)
    requires '%' !in prefix
    ensures DecodeUriComponent(prefix + rest)
            == (match DecodeUriComponent(rest) case Some(t) => Some(prefix + t) case None => None)
  {
    if prefix != [] {
      var s := prefix + rest;
      assert s[0] == prefix[0] && s[1..] == prefix[1..] + rest;
      DecodePrefix(prefix[1..], rest);
      match DecodeUriComponent(rest)
      case Some(t) => assert [prefix[0]] + (prefix[1..] + t) == prefix + t;
      case None =>
    } else {
      assert prefix + rest == rest;
      match DecodeUriComponent(rest)
      case Some(t) => assert prefix + t == t;
      case None =>
    }
  }

  /** The file type is the extension, lower-cased, without its dot. */
  lemma FileTypeOf(name: string, stem: string, ext: string)
    requires stem != [] && '.' !in stem && '.' !in ext
    requires '/' !in stem && '/' !in ext && ext != []
    requires name == stem + ['.'] + ext
    ensures FileType(name) == Lower(ext)
  {
    ExtNameOf(stem, ext);
    assert (['.'] + ext)[1..] == ext;
  }

  lemma ExtNameOf(stem: string, ext: string)
    requires stem != [] && '.' !in stem && '.' !in ext
    requires '/' !in stem && '/' !in ext && ext != []
    ensures ExtName(stem + ['.'] + ext) == ['.'] + ext
  {
    PlainSegment(stem + ['.'] + ext);
    SegmentExtOf(stem, ext);
  }

  /** A name without separators is its own last segment. */
  lemma PlainSegment(name: string)
    requires '/' !in name
    ensures LastSegment(StripTrailingSlashes(name)) == name
  {
    assert name == [] || name[|name| - 1] != '/';
    LastSegmentFree(name);
  }

  /** The extension of `stem.ext` is `.ext`. */
  lemma SegmentExtOf(stem: string, ext: string)
    requires stem != [] && '.' !in stem && '.' !in ext
    ensures SegmentExt(stem + ['.'] + ext) == ['.'] + ext
  {
    var seg := stem + ['.'] + ext;
    LastDotBefore(stem, ext);
    assert seg[|stem|] == '.';
    assert seg != ".." by {
      assert seg[0] == stem[0];
    }
    assert seg[|stem|..] == ['.'] + ext;
  }

  lemma {:induction false} LastDotBefore(a: string, b: string)
    requires '.' !in b
    ensures LastDot(a + ['.'] + b) == |a|
    decreases |b|
  {
    var s := a + ['.'] + b;
    if b != [] {
      var init := b[..|b| - 1];
      assert s[..|s| - 1] == a + ['.'] + init;
      LastDotBefore(a, init);
    }
  }

  lemma {:induction false} LastSegmentFree(s: string)
    requires '/' !in s
    ensures LastSegment(s) == s
  {
    if s != [] {
      LastSegmentFree(s[..|s| - 1]);
      assert s[..|s| - 1] + [s[|s| - 1]] == s;
    }
  }
}
