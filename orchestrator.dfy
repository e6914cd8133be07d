/** The runner's bookkeeping (tests/docx-compat/run-tests.ts): artefact file names, the
    classification of one corpus entry into pass / fail / skip / error, the reference
    generation loop and the test loop that writes the results file. The browser, the
    screenshots and the file system are observations handed in as parameters. */
module Orchestrator {
  import opened Wrappers
  import opened Text
  import opened PosixPath
  import opened Results
  import opened Comparator
  import Scorer

  const ActualSuffix := "-actual.png"
  const ReferenceSuffix := "-reference.png"
  const DiffSuffix := "-diff.png"
  const GenerateFlag := "--generate-references"

  // ---------------------------------------------------------------- artefact names

  /** `file.replace(/\.(docx|doc)$/, suffix)`: a trailing `.docx` or `.doc` (lower case
      only) gives way to the suffix; any other name is returned unchanged. */
  function ArtefactName(file: string, suffix: string): string {
    if EndsWith(file, ".docx") then file[..|file| - 5] + suffix
    else if EndsWith(file, ".doc") then file[..|file| - 4] + suffix
    else file
  }

  predicate IsWordName(file: string) {
    EndsWith(file, ".docx") || EndsWith(file, ".doc")
  }

  /** A directory given by its segments, as `path.join(__dirname, ...)` leaves it. */
  predicate ValidDir(segs: seq<string>) {
    segs != [] && ValidSegments(segs)
  }

  function Dir(segs: seq<string>): string {
    Render(Normal(segs, false))
  }

  datatype Paths = Paths(screenshot: string, reference: string, diff: string)

  /** The three artefact paths of one entry. */
  function ArtefactPaths(resultsDir: seq<string>, referenceDir: seq<string>, file: string): (p: Paths)
    requires ValidDir(resultsDir) && ValidDir(referenceDir)
  {
    JoinEmpty(resultsDir);
    JoinEmpty(referenceDir);
    Paths(JoinPath(Dir(resultsDir), ArtefactName(file, ActualSuffix)),
          JoinPath(Dir(referenceDir), ArtefactName(file, ReferenceSuffix)),
          JoinPath(Dir(resultsDir), ArtefactName(file, DiffSuffix)))
  }

  /** `name.docx` and `name.doc` keep their stem and take the suffix. */
  lemma ArtefactNameOfWord(stem: string, suffix: string)
    ensures ArtefactName(stem + ".docx", suffix) == stem + suffix
    ensures ArtefactName(stem + ".doc", suffix) == stem + suffix
  {
    var x := stem + ".docx";
    var d := stem + ".doc";
    assert x[|x| - 5..] == ".docx" && x[..|x| - 5] == stem;
    assert d[|d| - 4..] == ".doc" && d[..|d| - 4] == stem;
    assert d[|d| - 1] == 'c';
  }

  /** For a Word file name, different suffixes give different names, so the screenshot,
      the reference and the diff image of an entry never share a file. */
  lemma WordNamesDistinct(file: string, s1: string, s2: string)
    requires IsWordName(file) && s1 != s2
    ensures ArtefactName(file, s1) != ArtefactName(file, s2)
  {
    var k := if EndsWith(file, ".docx") then |file| - 5 else |file| - 4;
    assert ArtefactName(file, s1) == file[..k] + s1 && ArtefactName(file, s2) == file[..k] + s2;
    assert (file[..k] + s1)[k..] == s1 && (file[..k] + s2)[k..] == s2;
  }

  /** Any other name is left as it is, so the screenshot and the diff image of such an entry
      are one and the same file; `Report.DOCX` is such a name, the pattern being
      case-sensitive. */
  lemma OtherNamesCollide(resultsDir: seq<string>, referenceDir: seq<string>, file: string)
    requires ValidDir(resultsDir) && ValidDir(referenceDir) && !IsWordName(file)
    ensures ArtefactPaths(resultsDir, referenceDir, file).screenshot
            == ArtefactPaths(resultsDir, referenceDir, file).diff
  {
  }

  lemma UpperCaseIsOther(stem: string)
    ensures !IsWordName(stem + ".DOCX")
  {
    var f := stem + ".DOCX";
    assert f[|f| - 1] == 'X';
  }

  /** `name.docx` and `name.doc` share their artefacts. */
  lemma DocAndDocxShare(stem: string, suffix: string)
    ensures ArtefactName(stem + ".docx", suffix) == ArtefactName(stem + ".doc", suffix)
  {
    ArtefactNameOfWord(stem, suffix);
  }

  // ---------------------------------------------------------------- one entry

  /** Loading the viewer and taking the screenshot: done, or thrown with a message. */
  datatype Capture = Captured | CaptureFailed(message: string)

  /** Reading the two PNGs and comparing them: the sizes and the differing-pixel count the
      comparison reports, or an exception's message. */
  datatype Comparing =
    | Compared(actualW: nat, actualH: nat, refW: nat, refH: nat, diffPixels: nat)
    | CompareFailed(message: string)

  /** What happens to one entry in the world outside the model. */
  datatype Observation = Observation(
    capture: Capture,
    comparing: Comparing,
    screenshotExists: bool,
    durationMs: int)

  /** The pixel comparison never reports more differing pixels than the region holds. */
  predicate ValidObservation(o: Observation) {
    o.comparing.Compared? ==>
      o.comparing.diffPixels <= Min(o.comparing.actualW, o.comparing.refW)
                                * Min(o.comparing.actualH, o.comparing.refH)
  }

  /** An observation the pixel comparison can produce. */
  type Observed = o: Observation | ValidObservation(o) witness Observation(Captured, CompareFailed(""), false, 0)

  /** A share of differing pixels as the stored percentage; NaN is written as `null`. */
  function StoredPercent(r: Ratio): Option<real> {
    match RoundPercent(r)
    case Finite(v) => Some(v)
    case NotANumber => None
  }

  function ErrorResult(entry: CorpusEntry, paths: Paths, o: Observation, referenceExists: bool,
                       message: string): TestResult {
    TestResult(entry.file, entry.priority, entry.description, Error, None, None,
               if o.screenshotExists then Some(paths.screenshot) else None,
               referenceExists, Some(message), o.durationMs)
  }

  /** `runTest(page, entry, resultsDir)`; `references` is the set of files that exist when
      the reference is probed. */
  function RunTest(entry: CorpusEntry, paths: Paths, references: set<string>, o: Observation,
                   threshold: real): (r: TestResult)
    requires ValidObservation(o)
    ensures r.file == entry.file && r.priority == entry.priority
    ensures r.description == entry.description && r.durationMs == o.durationMs
    ensures r.status == Error <==> o.capture.CaptureFailed?
                                   || (paths.reference in references && o.comparing.CompareFailed?)
    ensures r.status == Skip <==> o.capture.Captured? && paths.reference !in references
    ensures r.status == Skip ==> !r.referenceExists && r.diffPercent.None?
                                 && r.screenshotPath == Some(paths.screenshot)
    ensures r.status == Error ==> r.referenceExists == (paths.reference in references)
                                  && r.errorMessage.Some? && r.diffPercent.None?
                                  && (r.screenshotPath.Some? <==> o.screenshotExists)
    ensures r.status in {Pass, Fail} ==>
              r.referenceExists && o.capture.Captured? && o.comparing.Compared?
              && r.diffImagePath == Some(paths.diff) && r.screenshotPath == Some(paths.screenshot)
              && r.errorMessage.None?
  {
    var referenceExists := paths.reference in references;
    match o.capture
    case CaptureFailed(m) => ErrorResult(entry, paths, o, referenceExists, m)
    case Captured =>
      if !referenceExists then
        TestResult(entry.file, entry.priority, entry.description, Skip, None, None,
                   Some(paths.screenshot), false, None, o.durationMs)
      else
        match o.comparing
        case CompareFailed(m) => ErrorResult(entry, paths, o, referenceExists, m)
        case Compared(aw, ah, rw, rh, n) =>
          var c := Compare(aw, ah, rw, rh, n, threshold);
          TestResult(entry.file, entry.priority, entry.description,
                     if c.passed then Pass else Fail, StoredPercent(c.diffPercent),
                     Some(paths.diff), Some(paths.screenshot), true, None, o.durationMs)
  }

  /** With a reference and a comparison, the entry passes exactly when the comparison's
      region is not empty and the differing pixels are at most `threshold` of its area,
      and the stored percentage is the rounded share. */
  lemma RunTestVerdict(entry: CorpusEntry, paths: Paths, references: set<string>, o: Observation,
                       threshold: real)
    requires ValidObservation(o) && o.capture.Captured? && paths.reference in references
    requires o.comparing.Compared?
    ensures var r := RunTest(entry, paths, references, o, threshold);
            var k := o.comparing;
            var area := Min(k.actualW, k.refW) * Min(k.actualH, k.refH);
            (r.status == Pass <==> area > 0 && k.diffPixels as real <= threshold * area as real)
            && (r.status == Fail <==> !(area > 0 && k.diffPixels as real <= threshold * area as real))
            && (area > 0 ==> r.diffPercent.Some? && 0.0 <= r.diffPercent.value <= 100.0)
            && (area == 0 ==> r.diffPercent.None?)
  {
    var k := o.comparing;
    PassedIff(k.actualW, k.actualH, k.refW, k.refH, k.diffPixels, threshold);
    var c := Compare(k.actualW, k.actualH, k.refW, k.refH, k.diffPixels, threshold);
    if c.diffPercent.Finite? {
      RoundPercentClose(c.diffPercent.value);
    }
  }

  // ---------------------------------------------------------------- reference generation

  function ReferencePath(referenceDir: seq<string>, e: CorpusEntry): string
    requires ValidDir(referenceDir)
  {
    JoinEmpty(referenceDir);
    JoinPath(Dir(referenceDir), ArtefactName(e.file, ReferenceSuffix))
  }

  /** One turn of the generation loop: entries outside the target tiers and entries whose
      reference already exists are passed over; otherwise the screenshot is saved if the
      capture succeeds, and a failure is logged and passed over as well. */
  function GenerateStep(e: CorpusEntry, ok: bool, targets: seq<Priority>, referenceDir: seq<string>,
                        written: seq<string>, files: set<string>): (seq<string>, set<string>)
    requires ValidDir(referenceDir)
  {
    var p := ReferencePath(referenceDir, e);
    if e.priority !in targets || p in files || !ok then (written, files)
    else (written + [p], files + {p})
  }

  /** The files written by the first `|es|` turns, in order, and the files then present:
      the files present are those present before and those written. */
  function Generated(es: seq<CorpusEntry>, ok: seq<bool>, targets: seq<Priority>,
                     referenceDir: seq<string>, files0: set<string>): (g: (seq<string>, set<string>))
    requires ValidDir(referenceDir) && |ok| == |es|
    ensures files0 <= g.1
    ensures forall p :: p in g.1 <==> p in files0 || p in g.0
    decreases |es|
  {
    if es == [] then ([], files0)
    else
      var n := |es| - 1;
      var prev := Generated(es[..n], ok[..n], targets, referenceDir, files0);
      GenerateStep(es[n], ok[n], targets, referenceDir, prev.0, prev.1)
  }

  /** Every written file was absent before, and none is written twice. */
  predicate WrittenFresh(written: seq<string>, files0: set<string>) {
    (forall k :: 0 <= k < |written| ==> written[k] !in files0)
    && (forall j, k :: 0 <= j < k < |written| ==> written[j] != written[k])
  }

  /** Nothing is overwritten. */
  lemma {:induction false} GeneratedFresh(es: seq<CorpusEntry>, ok: seq<bool>, targets: seq<Priority>,
                                          referenceDir: seq<string>, files0: set<string>)
    requires ValidDir(referenceDir) && |ok| == |es|
    ensures WrittenFresh(Generated(es, ok, targets, referenceDir, files0).0, files0)
    decreases |es|
  {
    if es != [] {
      var n := |es| - 1;
      GeneratedFresh(es[..n], ok[..n], targets, referenceDir, files0);
      var prev := Generated(es[..n], ok[..n], targets, referenceDir, files0);
      var g := Generated(es, ok, targets, referenceDir, files0);
      assert g == GenerateStep(es[n], ok[n], targets, referenceDir, prev.0, prev.1);
      if g.0 != prev.0 {
        var p := ReferencePath(referenceDir, es[n]);
        assert g.0 == prev.0 + [p] && p !in prev.1;
        assert forall k :: 0 <= k < |prev.0| ==> prev.0[k] in prev.1;
      }
    }
  }

  /** Every written file is the reference of a target entry whose capture succeeded. */
  lemma {:induction false} GeneratedTargets(es: seq<CorpusEntry>, ok: seq<bool>, targets: seq<Priority>,
                                            referenceDir: seq<string>, files0: set<string>)
    requires ValidDir(referenceDir) && |ok| == |es|
    ensures AllOfTargets(Generated(es, ok, targets, referenceDir, files0).0, es, ok, targets, referenceDir)
    decreases |es|
  {
    if es != [] {
      var n := |es| - 1;
      GeneratedTargets(es[..n], ok[..n], targets, referenceDir, files0);
      var prev := Generated(es[..n], ok[..n], targets, referenceDir, files0);
      var g := Generated(es, ok, targets, referenceDir, files0);
      assert g == GenerateStep(es[n], ok[n], targets, referenceDir, prev.0, prev.1);
      GeneratedWitness(es, ok, es[..n], ok[..n], targets, referenceDir, prev.0, g.0);
    }
  }

  /** Every target entry whose capture succeeds ends with its reference present. */
  lemma {:induction false} GeneratedCovers(es: seq<CorpusEntry>, ok: seq<bool>, targets: seq<Priority>,
                                           referenceDir: seq<string>, files0: set<string>)
    requires ValidDir(referenceDir) && |ok| == |es|
    ensures var g := Generated(es, ok, targets, referenceDir, files0);
            forall i :: 0 <= i < |es| && es[i].priority in targets && ok[i] ==>
              ReferencePath(referenceDir, es[i]) in g.1
    decreases |es|
  {
    if es != [] {
      var n := |es| - 1;
      GeneratedCovers(es[..n], ok[..n], targets, referenceDir, files0);
      var prev := Generated(es[..n], ok[..n], targets, referenceDir, files0);
      var g := Generated(es, ok, targets, referenceDir, files0);
      assert g == GenerateStep(es[n], ok[n], targets, referenceDir, prev.0, prev.1);
      assert prev.1 <= g.1;
      forall i | 0 <= i < n
        ensures es[..n][i] == es[i] && ok[..n][i] == ok[i]
      {
      }
    }
  }

  predicate AllOfTargets(written: seq<string>, es: seq<CorpusEntry>, ok: seq<bool>, targets: seq<Priority>,
                         referenceDir: seq<string>)
    requires ValidDir(referenceDir) && |ok| == |es|
  {
    forall k :: 0 <= k < |written| ==> ReferenceOfTarget(written[k], es, ok, targets, referenceDir)
  }

  /** `p` is the reference path of a target entry whose capture succeeds. */
  predicate ReferenceOfTarget(p: string, es: seq<CorpusEntry>, ok: seq<bool>, targets: seq<Priority>,
                              referenceDir: seq<string>)
    requires ValidDir(referenceDir) && |ok| == |es|
  {
    exists i :: 0 <= i < |es| && es[i].priority in targets && ok[i] && p == ReferencePath(referenceDir, es[i])
  }

  /** Every file written by the first `n + 1` turns belongs to a target entry among them. */
  lemma GeneratedWitness(es: seq<CorpusEntry>, ok: seq<bool>, pre: seq<CorpusEntry>, preOk: seq<bool>,
                         targets: seq<Priority>, referenceDir: seq<string>,
                         prev: seq<string>, next: seq<string>)
    requires ValidDir(referenceDir) && |ok| == |es| && es != []
    requires pre == es[..|es| - 1] && preOk == ok[..|es| - 1]
    requires AllOfTargets(prev, pre, preOk, targets, referenceDir)
    requires next == prev || (next == prev + [ReferencePath(referenceDir, es[|es| - 1])]
                              && es[|es| - 1].priority in targets && ok[|es| - 1])
    ensures AllOfTargets(next, es, ok, targets, referenceDir)
  {
    var n := |es| - 1;
    forall k | 0 <= k < |next|
      ensures ReferenceOfTarget(next[k], es, ok, targets, referenceDir)
    {
      if k < |prev| {
        assert ReferenceOfTarget(prev[k], pre, preOk, targets, referenceDir);
        var i :| 0 <= i < |pre| && pre[i].priority in targets && preOk[i]
                 && prev[k] == ReferencePath(referenceDir, pre[i]);
        assert pre[i] == es[i] && preOk[i] == ok[i];
        assert next[k] == prev[k];
      } else {
        assert next != prev;
        assert next[k] == ReferencePath(referenceDir, es[n]);
        assert es[n].priority in targets && ok[n];
      }
    }
  }

  /** `generateReferences(page, entries, targetPriorities)`; `captureOk[i]` says whether
      the viewer and the screenshot of entry `i` succeed. */
  method GenerateReferences(entries: seq<CorpusEntry>, targets: seq<Priority>,
                            referenceDir: seq<string>, files0: set<string>, captureOk: seq<bool>)
    returns (written: seq<string>, files: set<string>)
    requires ValidDir(referenceDir) && |captureOk| == |entries|
    ensures (written, files) == Generated(entries, captureOk, targets, referenceDir, files0)
  {
    written, files := [], files0;
    var i := 0;
    while i < |entries|
      invariant 0 <= i <= |entries|
      invariant (written, files) == Generated(entries[..i], captureOk[..i], targets, referenceDir, files0)
    {
      var e := entries[i];
      var p := ReferencePath(referenceDir, e);
      assert entries[..i + 1][..i] == entries[..i] && captureOk[..i + 1][..i] == captureOk[..i];
      if e.priority !in targets {
        i := i + 1;
        continue;
      }
      if p in files {
        i := i + 1;
        continue;
      }
      if captureOk[i] {
        written := written + [p];
        files := files + {p};
      }
      i := i + 1;
    }
    assert entries[..i] == entries && captureOk[..i] == captureOk;
  }

  /** The generation mode of `main` targets the critical and high tiers only: no medium
      entry ever gets a reference written. */
  lemma MainGeneratesGatedTiersOnly(entries: seq<CorpusEntry>, referenceDir: seq<string>,
                                    files0: set<string>, captureOk: seq<bool>, k: nat)
    requires ValidDir(referenceDir) && |captureOk| == |entries|
    requires k < |Generated(entries, captureOk, [Critical, High], referenceDir, files0).0|
    ensures exists i :: 0 <= i < |entries| && entries[i].priority != Medium
              && Generated(entries, captureOk, [Critical, High], referenceDir, files0).0[k]
                 == ReferencePath(referenceDir, entries[i])
  {
    GeneratedTargets(entries, captureOk, [Critical, High], referenceDir, files0);
    var p := Generated(entries, captureOk, [Critical, High], referenceDir, files0).0[k];
    assert ReferenceOfTarget(p, entries, captureOk, [Critical, High], referenceDir);
    var i :| 0 <= i < |entries| && entries[i].priority in [Critical, High] && captureOk[i]
             && p == ReferencePath(referenceDir, entries[i]);
    assert entries[i].priority != Medium;
  }

  // ---------------------------------------------------------------- the test loop

  /** The results of running `runTest` on each entry in turn: the result in each position
      is the classification of the manifest entry in that position. */
  function RunEach(es: seq<CorpusEntry>, obs: seq<Observed>, resultsDir: seq<string>,
                   referenceDir: seq<string>, references: set<string>, threshold: real): (rs: seq<TestResult>)
    requires ValidDir(resultsDir) && ValidDir(referenceDir) && |obs| == |es|
  {
    seq(|es|, i requires 0 <= i < |es| =>
      RunTest(es[i], ArtefactPaths(resultsDir, referenceDir, es[i].file), references, obs[i], threshold))
  }

  /** The test mode of `main`: one `runTest` per manifest entry, pushed in manifest order,
      then the results file with `total` the number of results. */
  method RunAll(entries: seq<CorpusEntry>, obs: seq<Observed>, resultsDir: seq<string>,
                referenceDir: seq<string>, references: set<string>, threshold: real,
                timestamp: string, ooUrl: string)
    returns (data: ResultsFile)
    requires ValidDir(resultsDir) && ValidDir(referenceDir) && |obs| == |entries|
    ensures data.results == RunEach(entries, obs, resultsDir, referenceDir, references, threshold)
    ensures data.total == |data.results| == |entries|
    ensures data.timestamp == timestamp && data.ooUrl == ooUrl && data.threshold == threshold
  {
    var results: seq<TestResult> := [];
    var i := 0;
    while i < |entries|
      invariant 0 <= i <= |entries|
      invariant results == RunEach(entries[..i], obs[..i], resultsDir, referenceDir, references, threshold)
    {
      var entry := entries[i];
      var result := RunTest(entry, ArtefactPaths(resultsDir, referenceDir, entry.file), references,
                            obs[i], threshold);
      RunEachSnoc(entries, obs, resultsDir, referenceDir, references, threshold, i);
      results := results + [result];
      i := i + 1;
    }
    assert entries[..i] == entries && obs[..i] == obs;
    data := ResultsFile(timestamp, ooUrl, threshold, |results|, results);
  }

  lemma RunEachSnoc(es: seq<CorpusEntry>, obs: seq<Observed>, resultsDir: seq<string>,
                    referenceDir: seq<string>, references: set<string>, threshold: real, i: nat)
    requires ValidDir(resultsDir) && ValidDir(referenceDir) && |obs| == |es|
    requires i < |es|
    ensures RunEach(es[..i + 1], obs[..i + 1], resultsDir, referenceDir, references, threshold)
            == RunEach(es[..i], obs[..i], resultsDir, referenceDir, references, threshold)
               + [RunTest(es[i], ArtefactPaths(resultsDir, referenceDir, es[i].file), references,
                          obs[i], threshold)]
  {
    var rs := RunEach(es[..i + 1], obs[..i + 1], resultsDir, referenceDir, references, threshold);
    var init := RunEach(es[..i], obs[..i], resultsDir, referenceDir, references, threshold);
    forall k | 0 <= k < i
      ensures rs[k] == init[k]
    {
      assert es[..i + 1][k] == es[..i][k] && obs[..i + 1][k] == obs[..i][k];
    }
    SnocOf(rs, init, rs[i]);
  }

  /** A sequence one longer than `init` that agrees with it is `init` and one more. */
  lemma SnocOf(rs: seq<TestResult>, init: seq<TestResult>, x: TestResult)
    requires |rs| == |init| + 1 && rs[|init|] == x
    requires forall k :: 0 <= k < |init| ==> rs[k] == init[k]
    ensures rs == init + [x]
  {
  }

  // ---------------------------------------------------------------- runner and scorer

  /** The number of manifest entries in a tier. */
  function TierSize(es: seq<CorpusEntry>, tier: Priority): nat {
    if es == [] then 0
    else TierSize(es[..|es| - 1], tier) + (if es[|es| - 1].priority == tier then 1 else 0)
  }

  /** The scorer's tier totals are the manifest's tier sizes: every entry is scored in its
      own tier, once. */
  lemma {:induction false} TierTotalsFollowManifest(es: seq<CorpusEntry>, obs: seq<Observed>,
                                                    resultsDir: seq<string>, referenceDir: seq<string>,
                                                    references: set<string>, threshold: real,
                                                    tier: Priority)
    requires ValidDir(resultsDir) && ValidDir(referenceDir) && |obs| == |es|
    ensures |Scorer.OfTier(RunEach(es, obs, resultsDir, referenceDir, references, threshold), tier)|
            == TierSize(es, tier)
    decreases |es|
  {
    if es != [] {
      var n := |es| - 1;
      var init := RunEach(es[..n], obs[..n], resultsDir, referenceDir, references, threshold);
      var last := RunTest(es[n], ArtefactPaths(resultsDir, referenceDir, es[n].file), references,
                          obs[n], threshold);
      TierTotalsFollowManifest(es[..n], obs[..n], resultsDir, referenceDir, references, threshold, tier);
      RunEachSnoc(es, obs, resultsDir, referenceDir, references, threshold, n);
      assert es[..n + 1] == es && obs[..n + 1] == obs;
      Scorer.OfTierAppend(init, [last], tier);
      assert [last][1..] == [];
      assert es[..n] == es[..|es| - 1];
    }
  }

  predicate AllSkipped(rs: seq<TestResult>) {
    forall i :: 0 <= i < |rs| ==> rs[i].status == Skip
  }

  lemma {:induction false} SkippedHaveNoOtherStatus(rs: seq<TestResult>, status: Status)
    requires AllSkipped(rs) && status != Skip
    ensures Scorer.WithStatus(rs, status) == []
  {
    if rs != [] {
      SkippedHaveNoOtherStatus(rs[1..], status);
    }
  }

  lemma {:induction false} TierOfSkippedIsSkipped(rs: seq<TestResult>, tier: Priority)
    requires AllSkipped(rs)
    ensures AllSkipped(Scorer.OfTier(rs, tier))
  {
    if rs != [] {
      TierOfSkippedIsSkipped(rs[1..], tier);
      var head := if rs[0].priority == tier then [rs[0]] else [];
      var t := Scorer.OfTier(rs[1..], tier);
      assert Scorer.OfTier(rs, tier) == head + t;
      assert forall i :: 0 <= i < |head + t| ==> (head + t)[i] == if i < |head| then rs[0] else t[i - |head|];
    }
  }

  /** A tier made of skipped results has nothing evaluated. */
  lemma AllSkippedNothingEvaluated(rs: seq<TestResult>, tier: Priority)
    requires AllSkipped(rs)
    ensures Scorer.Evaluated(rs, tier) == 0
  {
    TierOfSkippedIsSkipped(rs, tier);
    SkippedHaveNoOtherStatus(Scorer.OfTier(rs, tier), Pass);
    SkippedHaveNoOtherStatus(Scorer.OfTier(rs, tier), Fail);
    SkippedHaveNoOtherStatus(Scorer.OfTier(rs, tier), Error);
  }

  /** Running the suite before any reference exists, with every capture succeeding, skips
      every entry, and the scorer then fails the gate: a missing reference never counts as
      a pass. */
  lemma RunWithoutReferencesFailsGate(es: seq<CorpusEntry>, obs: seq<Observed>,
                                      resultsDir: seq<string>, referenceDir: seq<string>,
                                      threshold: real, data: ResultsFile, generatedAt: string)
    requires ValidDir(resultsDir) && ValidDir(referenceDir) && |obs| == |es|
    requires forall j :: 0 <= j < |obs| ==> obs[j].capture.Captured?
    requires data.results == RunEach(es, obs, resultsDir, referenceDir, {}, threshold)
    ensures AllSkipped(data.results)
    ensures !Scorer.BuildReport(data, generatedAt).passed
  {
    AllSkippedNothingEvaluated(data.results, Critical);
  }

  // ---------------------------------------------------------------- main

  datatype RunOutcome =
    | Exited(code: int)
    | ReferencesGenerated(written: seq<string>, files: set<string>)
    | ResultsWritten(data: ResultsFile)

  /** `main()`: when no manifest could be read (`None`: the file is missing or does not
      parse) or the document server is unreachable, the process exits 1; otherwise the flag
      chooses between generating critical and high references and running every entry. */
  method RunMain(args: seq<string>, manifest: Option<seq<CorpusEntry>>, serverHealthy: bool,
                 obs: seq<Observed>, captureOk: seq<bool>, resultsDir: seq<string>,
                 referenceDir: seq<string>, references: set<string>, threshold: real,
                 timestamp: string, ooUrl: string)
    returns (outcome: RunOutcome)
    requires ValidDir(resultsDir) && ValidDir(referenceDir)
    requires manifest.Some? ==> |obs| == |manifest.value| && |captureOk| == |manifest.value|
    ensures outcome.Exited? <==> manifest.None? || !serverHealthy
    ensures outcome.Exited? ==> outcome.code == 1
    ensures outcome.ReferencesGenerated? <==> manifest.Some? && serverHealthy && GenerateFlag in args
    ensures outcome.ReferencesGenerated? ==>
              (outcome.written, outcome.files)
              == Generated(manifest.value, captureOk, [Critical, High], referenceDir, references)
    ensures outcome.ResultsWritten? ==>
              outcome.data.results == RunEach(manifest.value, obs, resultsDir, referenceDir,
                                               references, threshold)
              && outcome.data.total == |manifest.value|
  {
    var generate := GenerateFlag in args;
    if manifest.None? {
      return Exited(1);
    }
    if !serverHealthy {
      return Exited(1);
    }
    var entries := manifest.value;
    if generate {
      var written, files := GenerateReferences(entries, [Critical, High], referenceDir, references,
                                               captureOk);
      outcome := ReferencesGenerated(written, files);
    } else {
      var data := RunAll(entries, obs, resultsDir, referenceDir, references, threshold,
                         timestamp, ooUrl);
      outcome := ResultsWritten(data);
    }
  }
}
