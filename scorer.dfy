/** The scorer/gate of the fidelity harness (tests/docx-compat/score-results.ts): per-tier
    pass rates over the results artefact, the fixed tier thresholds, the overall verdict and
    the process exit code, and the HTML escaping used by the report. */
module Scorer {
  import opened Wrappers
  import opened Results

  const CriticalPassThreshold: real := 0.95
  const HighPassThreshold: real := 0.90
  /** Medium is informational: the scorer passes it a threshold of zero. */
  const MediumPassThreshold: real := 0.0

  datatype TierSummary = TierSummary(
    tier: Priority,
    total: nat,
    passed: nat,
    failed: nat,
    skipped: nat,
    errored: nat,
    passRate: real,
    threshold: real,
    meetsThreshold: bool)

  // ---------------------------------------------------------------- filters

  /** `results.filter((r) => r.priority === tier)` */
  function OfTier(rs: seq<TestResult>, tier: Priority): seq<TestResult> {
    if rs == [] then []
    else (if rs[0].priority == tier then [rs[0]] else []) + OfTier(rs[1..], tier)
  }

  /** `results.filter((r) => r.status === status)` */
  function WithStatus(rs: seq<TestResult>, status: Status): seq<TestResult> {
    if rs == [] then []
    else (if rs[0].status == status then [rs[0]] else []) + WithStatus(rs[1..], status)
  }

  /** The number of results of `tier` that have `status`. */
  function Count(rs: seq<TestResult>, tier: Priority, status: Status): nat {
    |WithStatus(OfTier(rs, tier), status)|
  }

  /** The results of `tier` that were actually compared or failed: skips are not counted. */
  function Evaluated(rs: seq<TestResult>, tier: Priority): nat {
    Count(rs, tier, Pass) + Count(rs, tier, Fail) + Count(rs, tier, Error)
  }

  lemma {:induction false} OfTierAppend(a: seq<TestResult>, b: seq<TestResult>, tier: Priority)
    ensures OfTier(a + b, tier) == OfTier(a, tier) + OfTier(b, tier)
  {
    if a != [] {
      assert (a + b)[0] == a[0] && (a + b)[1..] == a[1..] + b;
      OfTierAppend(a[1..], b, tier);
      var head := if a[0].priority == tier then [a[0]] else [];
      assert OfTier(a + b, tier) == head + OfTier(a[1..] + b, tier);
      assert OfTier(a, tier) == head + OfTier(a[1..], tier);
    } else {
      assert a + b == b;
    }
  }

  lemma {:induction false} OfTierOnlyTier(rs: seq<TestResult>, tier: Priority)
    ensures forall i :: 0 <= i < |OfTier(rs, tier)| ==> OfTier(rs, tier)[i].priority == tier
    ensures OfTier(OfTier(rs, tier), tier) == OfTier(rs, tier)
  {
    if rs != [] {
      OfTierOnlyTier(rs[1..], tier);
      var head := if rs[0].priority == tier then [rs[0]] else [];
      OfTierAppend(head, OfTier(rs[1..], tier), tier);
    }
  }

  /** Every result has exactly one of the four statuses. */
  lemma {:induction false} StatusesPartition(rs: seq<TestResult>)
    ensures |WithStatus(rs, Pass)| + |WithStatus(rs, Fail)| + |WithStatus(rs, Skip)|
            + |WithStatus(rs, Error)| == |rs|
  {
    if rs != [] {
      StatusesPartition(rs[1..]);
    }
  }

  // ---------------------------------------------------------------- tiers

  /** `computeTier`: the summary of one tier. Skipped results are left out of the pass
      rate; a tier with nothing evaluated fails whatever its threshold. */
  function ComputeTier(results: seq<TestResult>, tier: Priority, threshold: real): (r: TierSummary)
    ensures r.tier == tier && r.threshold == threshold
    ensures r.total == |OfTier(results, tier)|
    ensures r.passed + r.failed + r.skipped + r.errored == r.total
    ensures r.skipped == Count(results, tier, Skip)
    ensures 0.0 <= r.passRate <= 1.0
    ensures Evaluated(results, tier) == 0 ==>
              r.passed == 0 && r.failed == 0 && r.errored == 0 && r.skipped == r.total
              && r.passRate == 0.0 && !r.meetsThreshold
    ensures Evaluated(results, tier) > 0 ==>
              r.passed == Count(results, tier, Pass) && r.failed == Count(results, tier, Fail)
              && r.errored == Count(results, tier, Error)
              && r.passRate == r.passed as real / (r.passed + r.failed + r.errored) as real
    ensures r.meetsThreshold <==> Evaluated(results, tier) > 0 && r.passRate >= threshold
  {
    var tierResults := OfTier(results, tier);
    var passed := |WithStatus(tierResults, Pass)|;
    var failed := |WithStatus(tierResults, Fail)|;
    var skipped := |WithStatus(tierResults, Skip)|;
    var errored := |WithStatus(tierResults, Error)|;
    var evaluated := passed + failed + errored;
    StatusesPartition(tierResults);
    if evaluated == 0 then
      TierSummary(tier, |tierResults|, 0, 0, skipped, 0, 0.0, threshold, false)
    else
      var passRate := Rate(passed, evaluated);
      TierSummary(tier, |tierResults|, passed, failed, skipped, errored, passRate, threshold,
                  passRate >= threshold)
  }

  /** `passed / evaluated` for a non-empty evaluation: a fraction in [0, 1]. */
  function Rate(passed: nat, evaluated: nat): (r: real)
    requires 0 < evaluated && passed <= evaluated
    ensures r == passed as real / evaluated as real
    ensures r * evaluated as real == passed as real
    ensures 0.0 <= r <= 1.0
  {
    var q := passed as real / evaluated as real;
    assert q * evaluated as real == passed as real;
    q
  }

  /** A tier's summary depends on that tier's results only: inserting a result of another
      tier anywhere changes nothing. */
  lemma IgnoresOtherTiers(a: seq<TestResult>, x: TestResult, b: seq<TestResult>,
                          tier: Priority, threshold: real)
    requires x.priority != tier
    ensures ComputeTier(a + [x] + b, tier, threshold) == ComputeTier(a + b, tier, threshold)
  {
    OfTierAppend(a + [x], b, tier);
    OfTierAppend(a, [x], tier);
    OfTierAppend(a, b, tier);
    assert [x][1..] == [];
    assert OfTier([x], tier) == [];
    assert OfTier(a + [x] + b, tier) == OfTier(a + b, tier);
  }

  /** Filtering the input down to the tier first gives the same summary. */
  lemma OnlyTierMatters(results: seq<TestResult>, tier: Priority, threshold: real)
    ensures ComputeTier(results, tier, threshold) == ComputeTier(OfTier(results, tier), tier, threshold)
  {
    OfTierOnlyTier(results, tier);
  }

  /** The threshold is inclusive: 9 passes and one error out of ten high-tier results
      meets 0.90. */
  lemma HighBoundaryMeets(results: seq<TestResult>)
    requires Count(results, High, Pass) == 9 && Count(results, High, Error) == 1
    requires Count(results, High, Fail) == 0
    ensures ComputeTier(results, High, HighPassThreshold).passRate == 0.9
    ensures ComputeTier(results, High, HighPassThreshold).meetsThreshold
  {
  }

  /** 18 passes and 2 failures out of twenty critical results is a rate of 0.90, below 0.95. */
  lemma CriticalEighteenOfTwentyMisses(results: seq<TestResult>)
    requires Count(results, Critical, Pass) == 18 && Count(results, Critical, Fail) == 2
    requires Count(results, Critical, Error) == 0
    ensures ComputeTier(results, Critical, CriticalPassThreshold).passRate == 0.9
    ensures !ComputeTier(results, Critical, CriticalPassThreshold).meetsThreshold
  {
  }

  /** Three passes out of three critical results meets the critical threshold. */
  lemma CriticalAllPassMeets(results: seq<TestResult>)
    requires Count(results, Critical, Pass) == 3
    requires Count(results, Critical, Fail) == 0 && Count(results, Critical, Error) == 0
    ensures ComputeTier(results, Critical, CriticalPassThreshold).passRate == 1.0
    ensures ComputeTier(results, Critical, CriticalPassThreshold).meetsThreshold
  {
  }

  /** With threshold zero the medium tier meets it exactly when something was evaluated. */
  lemma MediumMeetsIffEvaluated(results: seq<TestResult>)
    ensures ComputeTier(results, Medium, MediumPassThreshold).meetsThreshold
            <==> Evaluated(results, Medium) > 0
  {
  }

  // ---------------------------------------------------------------- report and gate

  datatype Overall = Overall(
    total: int,
    passed: nat,
    failed: nat,
    skipped: nat,
    errored: nat,
    passRate: real)

  datatype Report = Report(
    generatedAt: string,
    runTimestamp: string,
    ooUrl: string,
    pixelDiffThreshold: real,
    tiers: seq<TierSummary>,
    overall: Overall,
    results: seq<TestResult>,
    passed: bool)

  /** The overall line of the report: counts over all results, and a pass rate that is
      1.0 when nothing was evaluated. */
  function ComputeOverall(data: ResultsFile): (o: Overall)
    ensures o.total == data.total
    ensures o.passed + o.failed + o.skipped + o.errored == |data.results|
    ensures o.skipped == |WithStatus(data.results, Skip)|
    ensures o.passRate == OverallRate(o.passed, o.failed, o.errored)
  {
    var totalPassed := |WithStatus(data.results, Pass)|;
    var totalFailed := |WithStatus(data.results, Fail)|;
    var totalSkipped := |WithStatus(data.results, Skip)|;
    var totalErrored := |WithStatus(data.results, Error)|;
    StatusesPartition(data.results);
    Overall(data.total, totalPassed, totalFailed, totalSkipped, totalErrored,
            OverallRate(totalPassed, totalFailed, totalErrored))
  }

  /** The overall pass rate: passed over evaluated, or 1.0 when nothing was evaluated. */
  function OverallRate(passed: nat, failed: nat, errored: nat): (r: real)
    ensures 0.0 <= r <= 1.0
    ensures passed + failed + errored == 0 ==> r == 1.0
    ensures passed + failed + errored > 0 ==> r * (passed + failed + errored) as real == passed as real
  {
    var evaluated := passed + failed + errored;
    if evaluated > 0 then Rate(passed, evaluated) else 1.0
  }

  /** The report `main` builds from a loaded results file; `generatedAt` is the clock reading.
      The verdict is the conjunction of the critical and the high gate. */
  function BuildReport(data: ResultsFile, generatedAt: string): (r: Report)
    ensures |r.tiers| == 3
    ensures r.tiers[0] == ComputeTier(data.results, Critical, CriticalPassThreshold)
    ensures r.tiers[1] == ComputeTier(data.results, High, HighPassThreshold)
    ensures r.tiers[2] == ComputeTier(data.results, Medium, MediumPassThreshold)
    ensures r.passed <==> r.tiers[0].meetsThreshold && r.tiers[1].meetsThreshold
    ensures r.overall == ComputeOverall(data)
    ensures r.results == data.results && r.runTimestamp == data.timestamp
    ensures r.ooUrl == data.ooUrl && r.pixelDiffThreshold == data.threshold
  {
    var critical := ComputeTier(data.results, Critical, CriticalPassThreshold);
    var high := ComputeTier(data.results, High, HighPassThreshold);
    var medium := ComputeTier(data.results, Medium, MediumPassThreshold);
    Report(generatedAt, data.timestamp, data.ooUrl, data.threshold, [critical, high, medium],
           ComputeOverall(data), data.results, critical.meetsThreshold && high.meetsThreshold)
  }

  /** The medium tier never decides the verdict: inserting a medium result anywhere leaves
      `passed` as it was. */
  lemma VerdictIgnoresMedium(data: ResultsFile, a: seq<TestResult>, x: TestResult,
                             b: seq<TestResult>, generatedAt: string)
    requires x.priority == Medium && data.results == a + [x] + b
    ensures BuildReport(data, generatedAt).passed
            == BuildReport(data.(results := a + b), generatedAt).passed
  {
    IgnoresOtherTiers(a, x, b, Critical, CriticalPassThreshold);
    IgnoresOtherTiers(a, x, b, High, HighPassThreshold);
  }

  /** A run in which no critical result was evaluated (for instance, no reference images
      exist yet) fails the gate. */
  lemma NothingEvaluatedFailsGate(data: ResultsFile, generatedAt: string)
    requires Evaluated(data.results, Critical) == 0
    ensures !BuildReport(data, generatedAt).passed
  {
  }

  /** What `main` can find on disk: no results file, one that does not parse, or a file. */
  datatype ResultsInput = Missing | Unparsable | Loaded(data: ResultsFile)

  datatype ScoreOutcome = ScoreOutcome(report: Option<Report>, exitCode: int)

  /** `main` and its `.catch`: a missing or unreadable results file exits 1 without a report;
      otherwise the report is written and the exit code is 1 exactly when the gate fails. */
  function Score(input: ResultsInput, generatedAt: string): (out: ScoreOutcome)
    ensures out.exitCode == 0 || out.exitCode == 1
    ensures out.report.Some? <==> input.Loaded?
    ensures input.Loaded? ==> out.report.value.results == input.data.results
    ensures out.exitCode == 1 <==> !input.Loaded? || !out.report.value.passed
  {
    match input
    case Missing => ScoreOutcome(None, 1)
    case Unparsable => ScoreOutcome(None, 1)
    case Loaded(data) =>
      var report := BuildReport(data, generatedAt);
      ScoreOutcome(Some(report), if report.passed then 0 else 1)
  }

  /** The CI-facing contract: the scorer exits 0 exactly when the results file was read and
      both the critical and the high tier meet their thresholds. */
  lemma ExitZeroIffGatesMet(input: ResultsInput, generatedAt: string)
    ensures Score(input, generatedAt).exitCode == 0 <==>
              input.Loaded?
              && ComputeTier(input.data.results, Critical, CriticalPassThreshold).meetsThreshold
              && ComputeTier(input.data.results, High, HighPassThreshold).meetsThreshold
  {
  }

  // ---------------------------------------------------------------- HTML escaping

  /** `s.replace(/c/g, rep)` for a single character `c`. */
  function ReplaceChar(s: string, c: char, rep: string): string {
    if s == [] then []
    else (if s[0] == c then rep else [s[0]]) + ReplaceChar(s[1..], c, rep)
  }

  /** `escapeHtml`: five global replacements, `&` first. */
  function EscapeHtml(s: string): string {
    var s1 := ReplaceChar(s, '&', "&amp;");
    var s2 := ReplaceChar(s1, '<', "&lt;");
    var s3 := ReplaceChar(s2, '>', "&gt;");
    var s4 := ReplaceChar(s3, '"', "&quot;");
    ReplaceChar(s4, '\'', "&#39;")
  }

  /** The entity each character stands for in the escaped text. */
  function EscapeChar(c: char): string {
    if c == '&' then "&amp;"
    else if c == '<' then "&lt;"
    else if c == '>' then "&gt;"
    else if c == '"' then "&quot;"
    else if c == '\'' then "&#39;"
    else [c]
  }

  /** A one-pass reference: every character replaced by its entity, independently. */
  function EscapeEach(s: string): string {
    if s == [] then [] else EscapeChar(s[0]) + EscapeEach(s[1..])
  }

  lemma {:induction false} ReplaceCharAppend(a: string, b: string, c: char, rep: string)
    ensures ReplaceChar(a + b, c, rep) == ReplaceChar(a, c, rep) + ReplaceChar(b, c, rep)
  {
    if a != [] {
      assert (a + b)[0] == a[0] && (a + b)[1..] == a[1..] + b;
      ReplaceCharAppend(a[1..], b, c, rep);
      var head := if a[0] == c then rep else [a[0]];
      assert ReplaceChar(a + b, c, rep) == head + ReplaceChar(a[1..] + b, c, rep);
      assert ReplaceChar(a, c, rep) == head + ReplaceChar(a[1..], c, rep);
    } else {
      assert a + b == b;
    }
  }

  lemma {:induction false} EscapeHtmlAppend(a: string, b: string)
    ensures EscapeHtml(a + b) == EscapeHtml(a) + EscapeHtml(b)
  {
    var a1, b1 := ReplaceChar(a, '&', "&amp;"), ReplaceChar(b, '&', "&amp;");
    ReplaceCharAppend(a, b, '&', "&amp;");
    var a2, b2 := ReplaceChar(a1, '<', "&lt;"), ReplaceChar(b1, '<', "&lt;");
    ReplaceCharAppend(a1, b1, '<', "&lt;");
    var a3, b3 := ReplaceChar(a2, '>', "&gt;"), ReplaceChar(b2, '>', "&gt;");
    ReplaceCharAppend(a2, b2, '>', "&gt;");
    var a4, b4 := ReplaceChar(a3, '"', "&quot;"), ReplaceChar(b3, '"', "&quot;");
    ReplaceCharAppend(a3, b3, '"', "&quot;");
    ReplaceCharAppend(a4, b4, '\'', "&#39;");
  }

  lemma ReplaceCharOne(x: char, c: char, rep: string)
    ensures ReplaceChar([x], c, rep) == if x == c then rep else [x]
  {
    assert [x][1..] == [];
  }

  lemma {:induction false} ReplaceCharAbsent(s: string, c: char, rep: string)
    requires c !in s
    ensures ReplaceChar(s, c, rep) == s
  {
    if s != [] {
      ReplaceCharAbsent(s[1..], c, rep);
      assert [s[0]] + s[1..] == s;
    }
  }

  lemma EscapeHtmlOrdinary(c: char)
    requires c != '&' && c != '<' && c != '>' && c != '"' && c != '\''
    ensures EscapeHtml([c]) == [c]
  {
    ReplaceCharOne(c, '&', "&amp;");
    ReplaceCharOne(c, '<', "&lt;");
    ReplaceCharOne(c, '>', "&gt;");
    ReplaceCharOne(c, '"', "&quot;");
    ReplaceCharOne(c, '\'', "&#39;");
  }

  /** The passes after the one that produced `entity` leave it alone. */
  lemma EscapeLaterPasses(entity: string, after: nat)
    requires after <= 4
    requires after <= 0 ==> '<' !in entity
    requires after <= 1 ==> '>' !in entity
    requires after <= 2 ==> '"' !in entity
    requires after <= 3 ==> '\'' !in entity
    ensures after <= 0 ==> ReplaceChar(entity, '<', "&lt;") == entity
    ensures after <= 1 ==> ReplaceChar(entity, '>', "&gt;") == entity
    ensures after <= 2 ==> ReplaceChar(entity, '"', "&quot;") == entity
    ensures after <= 3 ==> ReplaceChar(entity, '\'', "&#39;") == entity
  {
    if after <= 0 { ReplaceCharAbsent(entity, '<', "&lt;"); }
    if after <= 1 { ReplaceCharAbsent(entity, '>', "&gt;"); }
    if after <= 2 { ReplaceCharAbsent(entity, '"', "&quot;"); }
    if after <= 3 { ReplaceCharAbsent(entity, '\'', "&#39;"); }
  }

  /** Once a character is replaced by its entity, the later passes leave the entity alone. */
  lemma EscapeHtmlOneChar(c: char)
    ensures EscapeHtml([c]) == EscapeChar(c)
  {
    if c == '&' {
      assert ReplaceChar("&", '&', "&amp;") == "&amp;";
      EscapeLaterPasses("&amp;", 0);
    } else if c == '<' {
      assert ReplaceChar("<", '&', "&amp;") == "<";
      assert ReplaceChar("<", '<', "&lt;") == "&lt;";
      EscapeLaterPasses("&lt;", 1);
    } else if c == '>' {
      assert ReplaceChar(">", '&', "&amp;") == ">";
      assert ReplaceChar(">", '<', "&lt;") == ">";
      assert ReplaceChar(">", '>', "&gt;") == "&gt;";
      EscapeLaterPasses("&gt;", 2);
    } else if c == '"' {
      assert ReplaceChar("\"", '&', "&amp;") == "\"";
      assert ReplaceChar("\"", '<', "&lt;") == "\"";
      assert ReplaceChar("\"", '>', "&gt;") == "\"";
      assert ReplaceChar("\"", '"', "&quot;") == "&quot;";
      EscapeLaterPasses("&quot;", 3);
    } else if c == '\'' {
      assert ReplaceChar("'", '&', "&amp;") == "'";
      assert ReplaceChar("'", '<', "&lt;") == "'";
      assert ReplaceChar("'", '>', "&gt;") == "'";
      assert ReplaceChar("'", '"', "&quot;") == "'";
      assert ReplaceChar("'", '\'', "&#39;") == "&#39;";
    } else {
      EscapeHtmlOrdinary(c);
    }
  }

  /** Because `&` is replaced first and no later replacement introduces the characters an
      earlier one looks for, the chain escapes every character exactly once. */
  lemma {:induction false} EscapeHtmlIsPerChar(s: string)
    ensures EscapeHtml(s) == EscapeEach(s)
  {
    if s != [] {
      assert s == [s[0]] + s[1..];
      EscapeHtmlAppend([s[0]], s[1..]);
      EscapeHtmlOneChar(s[0]);
      EscapeHtmlIsPerChar(s[1..]);
    }
  }

  lemma {:induction false} EscapeEachSafe(s: string)
    ensures '<' !in EscapeEach(s) && '>' !in EscapeEach(s)
    ensures '"' !in EscapeEach(s) && '\'' !in EscapeEach(s)
  {
    if s != [] {
      EscapeEachSafe(s[1..]);
      EscapeCharSafe(s[0]);
      assert EscapeEach(s) == EscapeChar(s[0]) + EscapeEach(s[1..]);
    }
  }

  lemma EscapeCharSafe(c: char)
    ensures '<' !in EscapeChar(c) && '>' !in EscapeChar(c)
    ensures '"' !in EscapeChar(c) && '\'' !in EscapeChar(c)
  {
  }

  /** Escaped text holds none of the four markup-significant characters. */
  lemma EscapeHtmlSafe(s: string)
    ensures '<' !in EscapeHtml(s) && '>' !in EscapeHtml(s)
    ensures '"' !in EscapeHtml(s) && '\'' !in EscapeHtml(s)
  {
    EscapeHtmlIsPerChar(s);
    EscapeEachSafe(s);
  }

  /** Decoding the five entities, left to right. */
  function UnescapeHtml(s: string): string
    decreases |s|
  {
    if s == [] then []
    else if s[0] != '&' then [s[0]] + UnescapeHtml(s[1..])
    else if |s| >= 5 && s[..5] == "&amp;" then "&" + UnescapeHtml(s[5..])
    else if |s| >= 4 && s[..4] == "&lt;" then "<" + UnescapeHtml(s[4..])
    else if |s| >= 4 && s[..4] == "&gt;" then ">" + UnescapeHtml(s[4..])
    else if |s| >= 6 && s[..6] == "&quot;" then "\"" + UnescapeHtml(s[6..])
    else if |s| >= 5 && s[..5] == "&#39;" then "'" + UnescapeHtml(s[5..])
    else [s[0]] + UnescapeHtml(s[1..])
  }

  /** Decoding one entity at the front of the text. */
  lemma UnescapeEntity(entity: string, c: char, rest: string)
    requires (entity, c) in {("&amp;", '&'), ("&lt;", '<'), ("&gt;", '>'), ("&quot;", '"'), ("&#39;", '\'')}
    ensures UnescapeHtml(entity + rest) == [c] + UnescapeHtml(rest)
  {
    var t := entity + rest;
    assert t[|entity|..] == rest;
    assert t[..|entity|] == entity;
    assert t[0] == '&' && t[1] == entity[1];
  }

  lemma UnescapeOrdinary(c: char, rest: string)
    requires c != '&'
    ensures UnescapeHtml([c] + rest) == [c] + UnescapeHtml(rest)
  {
    var t := [c] + rest;
    assert t[0] == c && t[1..] == rest;
  }

  lemma UnescapeEscapeChar(c: char, rest: string)
    ensures UnescapeHtml(EscapeChar(c) + rest) == [c] + UnescapeHtml(rest)
  {
    if c == '&' {
      UnescapeEntity("&amp;", c, rest);
    } else if c == '<' {
      UnescapeEntity("&lt;", c, rest);
    } else if c == '>' {
      UnescapeEntity("&gt;", c, rest);
    } else if c == '"' {
      UnescapeEntity("&quot;", c, rest);
    } else if c == '\'' {
      UnescapeEntity("&#39;", c, rest);
    } else {
      UnescapeOrdinary(c, rest);
    }
  }

  /** Escaping loses nothing: decoding the entities gives the original text back. */
  lemma {:induction false} EscapeHtmlRoundTrip(s: string)
    ensures UnescapeHtml(EscapeHtml(s)) == s
  {
    EscapeHtmlIsPerChar(s);
    EscapeEachRoundTrip(s);
  }

  lemma {:induction false} EscapeEachRoundTrip(s: string)
    ensures UnescapeHtml(EscapeEach(s)) == s
  {
    if s != [] {
      UnescapeEscapeChar(s[0], EscapeEach(s[1..]));
      EscapeEachRoundTrip(s[1..]);
    }
  }
}
