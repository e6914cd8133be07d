/** The fidelity runner's static file server (tests/docx-compat/run-tests.ts): it serves
    corpus documents to the document server and must never serve anything outside the
    corpus directory. The file system is the set of paths that exist (files and
    directories alike, as `existsSync` sees them). */
module FileServer {
  import opened Wrappers
  import opened Text
  import opened PosixPath
  import opened UriEncoding

  const DocxType := "application/vnd.openxmlformats-officedocument.wordprocessingml.document"
  const DocType := "application/msword"
  const OctetStream := "application/octet-stream"

  /** What the handler does with one request. `Streamed` is a 200 response whose body is the
      content of `path`; `Thrown` is the URIError of a malformed percent-escape escaping the
      request listener uncaught, so no response is written at all. */
  datatype Response =
    | NotFound(body: string)
    | Forbidden
    | Streamed(contentType: string, allowOrigin: string, disposition: string, path: string)
    | Thrown
  {
    /** The status code written, or `None` when the handler throws before writing one. */
    function Status(): Option<int> {
      match this
      case NotFound(_) => Some(404)
      case Forbidden => Some(403)
      case Streamed(_, _, _, _) => Some(200)
      case Thrown => None
    }
  }

  /** The MIME type by lower-cased extension. */
  function ContentType(filePath: string): (t: string)
    ensures t == DocxType <==> Lower(ExtName(filePath)) == ".docx"
    ensures t == DocType <==> Lower(ExtName(filePath)) == ".doc"
    ensures t in {DocxType, DocType, OctetStream}
  {
    var ext := Lower(ExtName(filePath));
    if ext == ".docx" then DocxType else if ext == ".doc" then DocType else OctetStream
  }

  function Disposition(filePath: string): string {
    "attachment; filename=\"" + Basename(filePath) + "\""
  }

  /** The corpus directory as a string: `path.join(__dirname, "corpus")`. */
  function CorpusDir(corpus: seq<string>): string {
    Render(Normal(corpus, false))
  }

  predicate ValidCorpus(corpus: seq<string>) {
    corpus != [] && ValidSegments(corpus)
  }

  /** The path a request resolves to, and its normal form: the request URL minus its first
      character, percent-decoded, joined under the corpus directory. */
  function Target(corpus: seq<string>, rel: string): (n: Normal)
    requires ValidCorpus(corpus)
    ensures ValidNormal(n)
  {
    JoinEmpty(corpus);
    JoinNormal(CorpusDir(corpus), rel)
  }

  /** The handler as written: the containment check is the string test
      `filePath.startsWith(CORPUS_DIR + sep)`. */
  function Route(corpus: seq<string>, url: Option<string>, existing: set<string>): (r: Response)
    requires ValidCorpus(corpus)
  {
    if url.None? || url.value == "" then NotFound("Not found")
    else
      match DecodeUriComponent(url.value[1..])
      case None => Thrown
      case Some(rel) =>
        Decide(corpus, Target(corpus, rel), existing)
  }

  /** The handler's decision once the request path is resolved, as written. */
  function Decide(corpus: seq<string>, n: Normal, existing: set<string>): Response {
    var filePath := Render(n);
    if !StartsWith(filePath, CorpusDir(corpus) + "/") then Forbidden
    else if filePath !in existing then NotFound("File not found")
    else Streamed(ContentType(filePath), "*", Disposition(filePath), filePath)
  }

  /** The handler with the strict containment that `startsWith(CORPUS_DIR + path.sep)` aims
      at: the resolved path must lie strictly below the corpus directory, so the directory
      itself is never reached. */
  function RouteStrict(corpus: seq<string>, url: Option<string>, existing: set<string>): (r: Response)
    requires ValidCorpus(corpus)
  {
    if url.None? || url.value == "" then NotFound("Not found")
    else
      match DecodeUriComponent(url.value[1..])
      case None => Thrown
      case Some(rel) =>
        DecideStrict(corpus, Target(corpus, rel), existing)
  }

  /** The corrected decision once the request path is resolved. */
  function DecideStrict(corpus: seq<string>, n: Normal, existing: set<string>): Response {
    var filePath := Render(n);
    if !StrictlyUnder(n.segs, corpus) then Forbidden
    else if filePath !in existing then NotFound("File not found")
    else Streamed(ContentType(filePath), "*", Disposition(filePath), filePath)
  }

  // ---------------------------------------------------------------- the routing rule

  /** A request without a URL (or with an empty one) is 404. */
  lemma NoUrlNotFound(corpus: seq<string>, url: Option<string>, existing: set<string>)
    requires ValidCorpus(corpus)
    requires url.None? || url.value == ""
    ensures Route(corpus, url, existing) == NotFound("Not found")
    ensures RouteStrict(corpus, url, existing) == NotFound("Not found")
  {
  }

  /** As written: the answer is 403 exactly when the resolved path is neither strictly
      below the corpus directory nor the directory itself with a trailing separator;
      otherwise 404 or 200 by existence, and a 200 streams the resolved path with the content
      type of its extension and its last segment as the attachment name. */
  lemma DecideRule(corpus: seq<string>, n: Normal, existing: set<string>)
    requires ValidCorpus(corpus) && ValidNormal(n)
    ensures var inside := StrictlyUnder(n.segs, corpus) || (n.segs == corpus && n.trailing);
            var r := Decide(corpus, n, existing);
            (r.Status() == Some(403) <==> !inside)
            && (r.Status() == Some(404) <==> inside && Render(n) !in existing)
            && (r.Status() == Some(200) <==> inside && Render(n) in existing)
            && (r.Status() == Some(200) ==>
                  r.path == Render(n) && r.contentType == ContentType(Render(n))
                  && r.allowOrigin == "*"
                  && r.disposition == "attachment; filename=\"" + n.segs[|n.segs| - 1] + "\"")
  {
    PrefixTestIff(corpus, n);
    if StrictlyUnder(n.segs, corpus) || (n.segs == corpus && n.trailing) {
      BasenameOfRendered(n);
    }
  }

  /** Corrected: 403 exactly when the resolved path is not strictly below the corpus
      directory, so every 200 serves something inside it, never the directory itself. */
  lemma DecideStrictRule(corpus: seq<string>, n: Normal, existing: set<string>)
    requires ValidCorpus(corpus) && ValidNormal(n)
    ensures var r := DecideStrict(corpus, n, existing);
            (r.Status() == Some(403) <==> !StrictlyUnder(n.segs, corpus))
            && (r.Status() == Some(404) <==> StrictlyUnder(n.segs, corpus) && Render(n) !in existing)
            && (r.Status() == Some(200) <==> StrictlyUnder(n.segs, corpus) && Render(n) in existing)
            && (r.Status() == Some(200) ==>
                  r.path == Render(n) && StartsWith(r.path, CorpusDir(corpus) + "/")
                  && r.path != CorpusDir(corpus) + "/"
                  && r.disposition == "attachment; filename=\"" + n.segs[|n.segs| - 1] + "\"")
  {
    PrefixTestIff(corpus, n);
    if StrictlyUnder(n.segs, corpus) {
      BasenameOfRendered(n);
      var rootDir := Normal(corpus, true);
      assert Render(rootDir) == CorpusDir(corpus) + "/";
      if Render(n) == Render(rootDir) {
        RenderInjective(n, rootDir);
      }
    }
  }

  /** The two handlers differ only on the corpus directory itself. */
  lemma RoutesAgreeBelowRoot(corpus: seq<string>, url: string, existing: set<string>, rel: string)
    requires ValidCorpus(corpus) && url != "" && DecodeUriComponent(url[1..]) == Some(rel)
    requires Target(corpus, rel).segs != corpus
    ensures Route(corpus, Some(url), existing) == RouteStrict(corpus, Some(url), existing)
  {
    PrefixTestIff(corpus, Target(corpus, rel));
  }

  /** Whatever the request, the corrected handler streams only paths strictly below the
      corpus directory. */
  lemma RouteStrictContained(corpus: seq<string>, url: Option<string>, existing: set<string>)
    requires ValidCorpus(corpus)
    ensures var r := RouteStrict(corpus, url, existing);
            r.Streamed? ==> StartsWith(r.path, CorpusDir(corpus) + "/")
                            && r.path != CorpusDir(corpus) + "/" && r.path in existing
  {
    if url.Some? && url.value != "" && DecodeUriComponent(url.value[1..]).Some? {
      var rel := DecodeUriComponent(url.value[1..]).value;
      DecideStrictRule(corpus, Target(corpus, rel), existing);
    }
  }

  // ---------------------------------------------------------------- concrete requests

  lemma DecodePlain(s: string)
    requires '%' !in s
    ensures DecodeUriComponent(s) == Some(s)
  {
    if s != [] {
      DecodePlain(s[1..]);
      assert [s[0]] + s[1..] == s;
    }
  }

  /** `GET /` names the corpus directory itself and is forbidden. */
  lemma RootRequestForbidden(corpus: seq<string>, existing: set<string>)
    requires ValidCorpus(corpus)
    ensures Route(corpus, Some("/"), existing) == Forbidden
    ensures RouteStrict(corpus, Some("/"), existing) == Forbidden
  {
    assert "/"[1..] == "";
    JoinEmpty(corpus);
    DecideRule(corpus, Target(corpus, ""), existing);
    DecideStrictRule(corpus, Target(corpus, ""), existing);
  }

  /** The pieces of `../../` followed by normal segments. */
  lemma ClimbPieces(tail: seq<string>)
    requires tail != [] && ValidSegments(tail)
    ensures Split("../../" + Join(tail, "/"), '/') == ["..", ".."] + tail
  {
    var j := Join(tail, "/");
    var r1 := ".." + ['/'] + j;
    assert "../../" + j == ".." + ['/'] + r1;
    SplitCons("..", '/', r1);
    SplitCons("..", '/', j);
    assert NoneContain(tail, '/');
    SplitJoin(tail, '/');
  }

  /** Two `..` pieces climb two levels; the rest are pushed. */
  lemma ResolveClimb(corpus: seq<string>, pieces: seq<string>, tail: seq<string>)
    requires |corpus| >= 2 && ValidSegments(tail)
    requires |pieces| >= 2 && pieces[0] == ".." && pieces[1] == ".." && pieces[2..] == tail
    ensures Resolve(corpus, pieces) == corpus[..|corpus| - 2] + tail
  {
    var once := corpus[..|corpus| - 1];
    var twice := corpus[..|corpus| - 2];
    assert Resolve(corpus, pieces) == Resolve(once, pieces[1..]);
    assert pieces[1..][0] == ".." && pieces[1..][1..] == pieces[2..];
    assert once[..|once| - 1] == twice;
    assert Resolve(once, pieces[1..]) == Resolve(twice, pieces[2..]);
    ResolvePushes(twice, tail);
  }

  /** Where `../../` followed by normal segments lands: two levels up, then down the
      segments, with no trailing separator. */
  lemma ClimbTarget(corpus: seq<string>, tail: seq<string>)
    requires ValidCorpus(corpus) && |corpus| >= 2 && tail != [] && ValidSegments(tail)
    ensures Target(corpus, "../../" + Join(tail, "/")) == Normal(corpus[..|corpus| - 2] + tail, false)
  {
    var rel := "../../" + Join(tail, "/");
    ClimbPieces(tail);
    var pieces := Split(rel, '/');
    assert pieces[2..] == tail;
    ResolveClimb(corpus, pieces, tail);
    JoinUnder(corpus, rel);
    JoinEnds(tail, "/");
    var last := tail[|tail| - 1];
    assert rel[|rel| - 1] == last[|last| - 1];
  }

  /** A request that climbs two levels out of a corpus directory at least two levels deep,
      then descends at most two, is refused: it cannot end up strictly below the corpus
      directory. */
  lemma ClimbForbidden(corpus: seq<string>, url: string, tail: seq<string>, existing: set<string>)
    requires ValidCorpus(corpus) && |corpus| >= 2
    requires 1 <= |tail| <= 2 && ValidSegments(tail)
    requires url != "" && DecodeUriComponent(url[1..]) == Some("../../" + Join(tail, "/"))
    ensures Route(corpus, Some(url), existing) == Forbidden
  {
    var n := Target(corpus, "../../" + Join(tail, "/"));
    ClimbTarget(corpus, tail);
    assert |n.segs| <= |corpus|;
    DecideRule(corpus, n, existing);
  }

  /** The text of `/../../etc/passwd`: the climb, then two normal segments, with nothing
      to decode. */
  lemma TraversalText()
    ensures "/../../etc/passwd" != "" && "/../../etc/passwd"[1..] == "../../" + Join(["etc", "passwd"], "/")
    ensures '%' !in "../../etc/passwd" && ValidSegments(["etc", "passwd"])
  {
    var tail := ["etc", "passwd"];
    assert tail[1..] == ["passwd"];
    assert Join(tail, "/") == "etc" + "/" + "passwd";
  }

  /** `GET /../../etc/passwd` is refused. */
  lemma PlainTraversalForbidden(corpus: seq<string>, existing: set<string>)
    requires ValidCorpus(corpus) && |corpus| >= 2
    ensures Route(corpus, Some("/../../etc/passwd"), existing) == Forbidden
  {
    TraversalText();
    DecodePlain("../../etc/passwd");
    ClimbForbidden(corpus, "/../../etc/passwd", ["etc", "passwd"], existing);
  }

  /** The same request percent-encoded is refused too: decoding happens before
      normalisation. */
  lemma EncodedTraversalForbidden(corpus: seq<string>, existing: set<string>, rel: string)
    requires ValidCorpus(corpus) && |corpus| >= 2 && rel == "../../etc/passwd"
    ensures Route(corpus, Some("/" + EncodeUriComponent(rel)), existing) == Forbidden
  {
    var url := "/" + EncodeUriComponent(rel);
    var tail := ["etc", "passwd"];
    assert rel == "../../" + Join(tail, "/");
    assert url[1..] == EncodeUriComponent(rel);
    DecodeEncode(rel);
    ClimbForbidden(corpus, url, tail, existing);
  }

  lemma DotPieces()
    ensures var pieces := Split("./", '/');
            |pieces| == 2 && pieces[0] == "." && pieces[1] == ""
  {
    assert "./"[1..] == "/";
    assert "/"[1..] == "";
  }

  /** Where `./` lands: the corpus directory, with the trailing separator kept. */
  lemma DotTarget(corpus: seq<string>)
    requires ValidCorpus(corpus)
    ensures Target(corpus, "./") == Normal(corpus, true)
    ensures Render(Target(corpus, "./")) == CorpusDir(corpus) + "/"
  {
    DotPieces();
    var pieces := Split("./", '/');
    assert Resolve(corpus, pieces) == Resolve(corpus, pieces[1..]) == Resolve(corpus, pieces[2..]);
    JoinUnder(corpus, "./");
  }

  /** A malformed escape makes `decodeURIComponent` throw inside the request listener: both
      handlers end without writing any status. */
  lemma MalformedEscapeWritesNothing(corpus: seq<string>, existing: set<string>)
    requires ValidCorpus(corpus)
    ensures Route(corpus, Some("/%zz"), existing).Status() == None
    ensures RouteStrict(corpus, Some("/%zz"), existing).Status() == None
  {
    assert "/%zz"[1..] == "%zz";
  }

  /** As written, `GET /./` passes the containment test and, the corpus directory existing,
      is answered 200 with the directory as the path handed to `createReadStream`, which then
      fails with an EISDIR error that nothing listens for. */
  lemma DotRequestAsWritten(corpus: seq<string>, existing: set<string>)
    requires ValidCorpus(corpus) && CorpusDir(corpus) + "/" in existing
    ensures Route(corpus, Some("/./"), existing).Status() == Some(200)
    ensures Route(corpus, Some("/./"), existing).path == CorpusDir(corpus) + "/"
  {
    var url := "/./";
    assert url[1..] == "./";
    DecodePlain("./");
    DotTarget(corpus);
    DecideRule(corpus, Target(corpus, "./"), existing);
  }

  /** Corrected, the same request is refused. */
  lemma DotRequestStrict(corpus: seq<string>, existing: set<string>)
    requires ValidCorpus(corpus)
    ensures RouteStrict(corpus, Some("/./"), existing) == Forbidden
  {
    var url := "/./";
    assert url[1..] == "./";
    DecodePlain("./");
    DotTarget(corpus);
    DecideStrictRule(corpus, Target(corpus, "./"), existing);
  }

  /** A rendered non-root path ends with `/` exactly when it keeps a trailing separator. */
  lemma RenderTrailing(n: Normal)
    requires ValidNormal(n) && n.segs != []
    ensures Render(n)[|Render(n)| - 1] == '/' <==> n.trailing
  {
    var last := n.segs[|n.segs| - 1];
    JoinEnds(n.segs, "/");
    if !n.trailing {
      assert Render(n)[|Render(n)| - 1] == last[|last| - 1];
    }
  }

  /** Distinct normal forms render to distinct strings. */
  lemma RenderInjective(a: Normal, b: Normal)
    requires ValidNormal(a) && ValidNormal(b) && a.segs != [] && b.segs != []
    requires Render(a) == Render(b)
    ensures a.segs == b.segs
  {
    RenderTrailing(a);
    RenderTrailing(b);
    SplitOfRendered(a);
    SplitOfRendered(b);
    var x := if a.trailing then [""] else [];
    assert a.segs + x == b.segs + x;
    assert |a.segs| == |b.segs|;
    assert a.segs == (a.segs + x)[..|a.segs|];
    assert b.segs == (b.segs + x)[..|b.segs|];
  }
}
