/** The records the fidelity harness passes between its stages: corpus manifest entries
    (read by the runner) and per-entry test results (written by the runner, read by the
    scorer). */
module Results {
  import opened Wrappers

  datatype Priority = Critical | High | Medium

  datatype Status = Pass | Fail | Skip | Error

  /** One manifest entry: a generated document and the tier it is gated in. */
  datatype CorpusEntry = CorpusEntry(
    file: string,
    priority: Priority,
    description: string,
    features: seq<string>)

  /** One entry's outcome in one run. Optional JSON fields are `Option`s; `diffPercent`
      is a percentage (0..100) rounded to two decimals. */
  datatype TestResult = TestResult(
    file: string,
    priority: Priority,
    description: string,
    status: Status,
    diffPercent: Option<real>,
    diffImagePath: Option<string>,
    screenshotPath: Option<string>,
    referenceExists: bool,
    errorMessage: Option<string>,
    durationMs: int)

  /** The results artefact: the sole interface between the runner and the scorer. */
  datatype ResultsFile = ResultsFile(
    timestamp: string,
    ooUrl: string,
    threshold: real,
    total: int,
    results: seq<TestResult>)
}
