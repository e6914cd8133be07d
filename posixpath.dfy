/** The POSIX flavour of Node's `path` module as the file server uses it: `join`,
    `normalize`, `basename` and `extname`. A normalised absolute path is kept as its list of
    segments plus the trailing-separator flag that `normalize` preserves. */
module PosixPath {
  import opened Text

  /** A segment that survives normalisation. */
  predicate ValidSegment(s: string) {
    s != "" && s != "." && s != ".." && '/' !in s
  }

  predicate ValidSegments(segs: seq<string>) {
    forall i :: 0 <= i < |segs| ==> ValidSegment(segs[i])
  }

  /** One step of `normalizeString` for an absolute path: empty and `.` segments vanish,
      `..` drops the last segment (and is itself dropped at the root). */
  function Step(acc: seq<string>, seg: string): seq<string> {
    if seg == "" || seg == "." then acc
    else if seg == ".." then (if acc == [] then [] else acc[..|acc| - 1])
    else acc + [seg]
  }

  function Resolve(acc: seq<string>, parts: seq<string>): seq<string>
    decreases |parts|
  {
    if parts == [] then acc else Resolve(Step(acc, parts[0]), parts[1..])
  }

  /** A normalised absolute path. */
  datatype Normal = Normal(segs: seq<string>, trailing: bool)

  predicate ValidNormal(n: Normal) {
    ValidSegments(n.segs)
  }

  /** The string form of a normalised absolute path: the root alone is `/`; otherwise the
      trailing separator is kept when the input had one. */
  function Render(n: Normal): string {
    "/" + Join(n.segs, "/") + (if n.trailing && n.segs != [] then "/" else "")
  }

  /** `path.normalize(p)` for an absolute `p`. */
  function Normalize(p: string): (n: Normal)
    requires StartsWith(p, "/")
    ensures ValidNormal(n)
  {
    SplitPiecesFree(p, '/');
    ResolveValid([], Split(p, '/'));
    Normal(Resolve([], Split(p, '/')), EndsWith(p, "/"))
  }

  /** `path.join(dir, rel)` for an absolute `dir`: empty arguments are skipped, the rest
      glued with `/` and normalised. */
  function JoinPath(dir: string, rel: string): (r: string)
    requires StartsWith(dir, "/")
  {
    Render(JoinNormal(dir, rel))
  }

  /** The normal form `path.join(dir, rel)` renders. */
  function JoinNormal(dir: string, rel: string): (n: Normal)
    requires StartsWith(dir, "/")
    ensures ValidNormal(n)
  {
    if rel == "" then Normalize(dir) else Normalize(dir + "/" + rel)
  }

  /** `path.basename(p)`: the last segment, trailing separators ignored. */
  function Basename(p: string): string
    decreases |p|
  {
    var q := StripTrailingSlashes(p);
    LastSegment(q)
  }

  function StripTrailingSlashes(p: string): (r: string)
    ensures |r| <= |p| && r == p[..|r|]
    ensures r == [] || r[|r| - 1] != '/'
    decreases |p|
  {
    if p != [] && p[|p| - 1] == '/' then StripTrailingSlashes(p[..|p| - 1]) else p
  }

  /** The text after the last `/`, or all of `p` when it has none. */
  function LastSegment(p: string): (r: string)
    ensures |r| <= |p| && '/' !in r
    ensures r == p[|p| - |r|..]
    ensures |r| < |p| ==> p[|p| - |r| - 1] == '/'
    decreases |p|
  {
    if p == [] then []
    else if p[|p| - 1] == '/' then []
    else
      var init := p[..|p| - 1];
      var r := LastSegment(init);
      assert p[|p| - |r| - 1..] == init[|init| - |r|..] + [p[|p| - 1]];
      r + [p[|p| - 1]]
  }

  /** The index of the last `.` in `s`, or -1. */
  function LastDot(s: string): (k: int)
    ensures -1 <= k < |s|
    ensures k >= 0 ==> s[k] == '.' && '.' !in s[k + 1..]
    ensures k == -1 ==> '.' !in s
  {
    if s == [] then -1
    else if s[|s| - 1] == '.' then |s| - 1
    else
      var k := LastDot(s[..|s| - 1]);
      assert s[k + 1..] == s[..|s| - 1][k + 1..] + [s[|s| - 1]];
      k
  }

  /** `path.extname` of one segment: from the last `.` on, except when there is no dot, the
      only dot opens the name (`.bashrc`), or the segment is `..`. */
  function SegmentExt(seg: string): (e: string)
    ensures e == [] || (e[0] == '.' && EndsWith(seg, e) && '.' !in e[1..])
  {
    var d := LastDot(seg);
    if d <= 0 || seg == ".." then ""
    else
      assert seg[d..][1..] == seg[d + 1..];
      seg[d..]
  }

  /** `path.extname(p)` */
  function ExtName(p: string): string {
    SegmentExt(LastSegment(StripTrailingSlashes(p)))
  }

  // ---------------------------------------------------------------- lemmas

  lemma {:induction false} ResolveValid(acc: seq<string>, parts: seq<string>)
    requires ValidSegments(acc) && NoneContain(parts, '/')
    ensures ValidSegments(Resolve(acc, parts))
    decreases |parts|
  {
    if parts != [] {
      ResolveValid(Step(acc, parts[0]), parts[1..]);
    }
  }

  lemma {:induction false} ResolveAppend(acc: seq<string>, a: seq<string>, b: seq<string>)
    ensures Resolve(acc, a + b) == Resolve(Resolve(acc, a), b)
    decreases |a|
  {
    if a == [] {
      assert a + b == b;
    } else {
      assert (a + b)[0] == a[0] && (a + b)[1..] == a[1..] + b;
      ResolveAppend(Step(acc, a[0]), a[1..], b);
    }
  }

  /** Segments that are already normal are simply pushed. */
  lemma {:induction false} ResolvePushes(acc: seq<string>, segs: seq<string>)
    requires ValidSegments(segs)
    ensures Resolve(acc, segs) == acc + segs
    decreases |segs|
  {
    if segs != [] {
      ResolvePushes(acc + [segs[0]], segs[1..]);
      assert acc + [segs[0]] + segs[1..] == acc + segs;
    }
  }

  /** The pieces of a normal directory's string form, split at `/`. */
  lemma SplitRendered(root: seq<string>)
    requires root != [] && ValidSegments(root)
    ensures Split(Join(root, "/"), '/') == root
  {
    assert NoneContain(root, '/');
    SplitJoin(root, '/');
  }

  /** Resolving from the root: a leading empty piece, then normal segments, just pushes. */
  lemma ResolveFromRoot(root: seq<string>, rest: seq<string>)
    requires ValidSegments(root)
    ensures Resolve([], [""] + root + rest) == Resolve(root, rest)
  {
    ResolveAppend([], [""] + root, rest);
    ResolveAppend([], [""], root);
    assert [""][1..] == [] && Step([], "") == [];
    assert Resolve([], [""]) == Resolve(Step([], ""), []) == [];
    ResolvePushes([], root);
    assert [] + root == root;
  }

  /** `path.join(dir, "")` is the normal directory itself. */
  lemma JoinEmpty(root: seq<string>)
    requires root != [] && ValidSegments(root)
    ensures StartsWith(Render(Normal(root, false)), "/")
    ensures Normalize(Render(Normal(root, false))) == Normal(root, false)
  {
    var j := Join(root, "/");
    var dir := Render(Normal(root, false));
    assert dir == [] + ['/'] + j;
    SplitAppend([], j, '/');
    SplitRendered(root);
    assert Split(dir, '/') == [""] + root + [];
    ResolveFromRoot(root, []);
    JoinEnds(root, "/");
    assert dir[|dir| - 1] == root[|root| - 1][|root[|root| - 1]| - 1];
  }

  /** The pieces of `dir + "/" + rel` for a normal directory `dir`. */
  lemma SplitUnder(root: seq<string>, rel: string)
    requires root != [] && ValidSegments(root)
    ensures Split(Render(Normal(root, false)) + "/" + rel, '/') == [""] + root + Split(rel, '/')
  {
    var j := Join(root, "/");
    var p := Render(Normal(root, false)) + "/" + rel;
    var tail := j + ['/'] + rel;
    assert p == [] + ['/'] + tail;
    SplitAppend([], tail, '/');
    SplitAppend(j, rel, '/');
    SplitRendered(root);
    assert Split([], '/') == [""];
  }

  /** Joining a non-empty relative path under a normal directory resolves the relative
      path's pieces starting from the directory's segments. */
  lemma JoinUnder(root: seq<string>, rel: string)
    requires root != [] && ValidSegments(root) && rel != ""
    ensures StartsWith(Render(Normal(root, false)) + "/" + rel, "/")
    ensures Normalize(Render(Normal(root, false)) + "/" + rel)
            == Normal(Resolve(root, Split(rel, '/')), EndsWith(rel, "/"))
  {
    var p := Render(Normal(root, false)) + "/" + rel;
    SplitUnder(root, rel);
    ResolveFromRoot(root, Split(rel, '/'));
    assert p[|p| - |rel|..] == rel;
  }

  /** The join of a non-empty list of normal segments ends with the last segment. */
  lemma {:induction false} JoinEnds(segs: seq<string>, sep: string)
    requires segs != [] && ValidSegments(segs)
    ensures EndsWith(Join(segs, sep), segs[|segs| - 1])
  {
    if |segs| > 1 {
      JoinEnds(segs[1..], sep);
      var t := Join(segs[1..], sep);
      assert Join(segs, sep) == (segs[0] + sep) + t;
    }
  }

  /** `segs` lies strictly below `root`. */
  predicate StrictlyUnder(segs: seq<string>, root: seq<string>) {
    |segs| > |root| && segs[..|root|] == root
  }

  /** The pieces of a rendered normal path after its leading `/`. */
  lemma SplitOfRendered(n: Normal)
    requires ValidNormal(n) && n.segs != []
    ensures Render(n)[1..] == Join(n.segs, "/") + (if n.trailing then "/" else "")
    ensures Split(Render(n)[1..], '/') == n.segs + (if n.trailing then [""] else [])
  {
    SplitRendered(n.segs);
    if n.trailing {
      var m := Join(n.segs, "/") + [ '/' ] + [];
      SplitAppend(Join(n.segs, "/"), [], '/');
      assert Render(n)[1..] == m;
    } else {
      assert Render(n)[1..] == Join(n.segs, "/");
    }
  }

  /** What passing the prefix test tells about the segments. */
  lemma PrefixTestPassed(root: seq<string>, n: Normal)
    requires root != [] && ValidSegments(root) && ValidNormal(n)
    requires StartsWith(Render(n), Render(Normal(root, false)) + "/")
    ensures StrictlyUnder(n.segs, root) || (n.segs == root && n.trailing)
  {
    var jr := Join(root, "/");
    var pre := Render(Normal(root, false)) + "/";
    var r := Render(n);
    assert pre == "/" + jr + "/";
    assert n.segs != [];
    var u := r[|pre|..];
    assert r == pre + u;
    assert r[1..] == jr + ['/'] + u;
    SplitAppend(jr, u, '/');
    SplitRendered(root);
    SplitOfRendered(n);
    var pieces := Split(u, '/');
    var extra := if n.trailing then [""] else [];
    assert n.segs + extra == root + pieces;
    if n.trailing && |n.segs| == |root| {
      assert n.segs == (n.segs + extra)[..|root|];
    } else {
      assert n.segs[..|root|] == (n.segs + extra)[..|root|];
    }
  }

  /** The string prefix test `p.startsWith(dir + "/")` on a normalised path is the segment
      test "strictly below `dir`", except that `dir` itself with a trailing separator also
      passes it. */
  lemma PrefixTestIff(root: seq<string>, n: Normal)
    requires root != [] && ValidSegments(root) && ValidNormal(n)
    ensures StartsWith(Render(n), Render(Normal(root, false)) + "/")
            <==> StrictlyUnder(n.segs, root) || (n.segs == root && n.trailing)
  {
    var jr := Join(root, "/");
    var pre := Render(Normal(root, false)) + "/";
    assert pre == "/" + jr + "/";
    if StrictlyUnder(n.segs, root) {
      var rest := n.segs[|root|..];
      assert n.segs == root + rest;
      JoinAppend(root, rest, "/");
      assert Render(n) == pre + Join(rest, "/") + (if n.trailing then "/" else "");
    } else if n.segs == root && n.trailing {
      assert Render(n) == pre;
    } else if StartsWith(Render(n), pre) {
      PrefixTestPassed(root, n);
    }
  }

  lemma {:induction false} LastSegmentAfterSlash(a: string, seg: string)
    requires '/' !in seg
    ensures LastSegment(a + "/" + seg) == seg
    decreases |seg|
  {
    var p := a + "/" + seg;
    if seg == [] {
      assert p[|p| - 1] == '/';
    } else {
      var init := seg[..|seg| - 1];
      assert p[..|p| - 1] == a + "/" + init;
      assert p[|p| - 1] == seg[|seg| - 1];
      LastSegmentAfterSlash(a, init);
      assert init + [seg[|seg| - 1]] == seg;
    }
  }

  /** Stripping trailing separators from a rendered non-root path drops the optional one. */
  lemma StripRendered(n: Normal)
    requires ValidNormal(n) && n.segs != []
    ensures StripTrailingSlashes(Render(n)) == "/" + Join(n.segs, "/")
  {
    var last := n.segs[|n.segs| - 1];
    var body := "/" + Join(n.segs, "/");
    JoinEnds(n.segs, "/");
    assert body[|body| - 1] == last[|last| - 1];
    if n.trailing {
      assert Render(n) == body + "/";
      assert (body + "/")[..|body|] == body;
    } else {
      assert Render(n) == body;
    }
  }

  /** `/` + a join ends with a separator and the last segment. */
  lemma SlashJoinEnds(segs: seq<string>) returns (prefix: string)
    requires segs != []
    ensures "/" + Join(segs, "/") == prefix + "/" + segs[|segs| - 1]
  {
    if |segs| == 1 {
      prefix := [];
    } else {
      prefix := "/" + Join(segs[..|segs| - 1], "/");
      JoinSnoc(segs, "/");
    }
  }

  /** The text after the last separator of `/` + a join is the last segment. */
  lemma LastOfJoin(segs: seq<string>)
    requires ValidSegments(segs) && segs != []
    ensures LastSegment("/" + Join(segs, "/")) == segs[|segs| - 1]
  {
    var last := segs[|segs| - 1];
    assert ValidSegment(last);
    var prefix := SlashJoinEnds(segs);
    LastSegmentAfterSlash(prefix, last);
  }

  /** `basename` of a normalised path is its last segment, trailing separator or not. */
  lemma BasenameOfRendered(n: Normal)
    requires ValidNormal(n) && n.segs != []
    ensures Basename(Render(n)) == n.segs[|n.segs| - 1]
    ensures ExtName(Render(n)) == SegmentExt(n.segs[|n.segs| - 1])
  {
    StripRendered(n);
    LastOfJoin(n.segs);
  }
}
