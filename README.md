# Sovereign: a verified model of the fidelity harness and the editor's rule sets

Sovereign is a browser word processor built around an embedded OnlyOffice document
editor. This project models two parts of it in Dafny and proves their properties.

**The DOCX fidelity harness** (`tests/docx-compat`). The runner
`run-tests.ts` does the following:

- serves each corpus document from a small static file server;
- opens the document in the OnlyOffice viewer and takes a screenshot;
- crops the screenshot and the reference image to their common size and compares them;
- records one result per manifest entry.

It can also generate the missing reference images for the critical and high tiers. The
scorer `score-results.ts` groups the results by tier, computes pass rates with skipped
entries left out, and gates CI on the critical (95 %) and high (90 %) thresholds.

**The web application's small rule sets** (`apps/web/src`):

- the keyboard shortcut table and its matcher;
- the keydown dispatcher;
- the two Zustand stores (editor and document);
- the OnlyOffice helpers: environment validation, trailing-slash stripping,
  `toAbsoluteUrl`, `buildOOConfig` and the connector cache;
- the Save As name sanitiser;
- the status bar (zoom buttons, slider presets, title editing);
- the New Document dialog;
- the command palette's grouping and callbacks.

The files are laid out as follows:

- **Shared definitions:**
  - `wrappers.dfy`: `Option` and `Result`;
  - `text.dfy`: the JavaScript string rules used (ASCII case mapping, `trim` white space, `startsWith`, `join`/`split`, decimal rendering);
  - `posixpath.dfy`: Node's POSIX `path.join`, `normalize`, `basename` and `extname`;
  - `uriencoding.dfy`: `encodeURIComponent` and `decodeURIComponent` over UTF-8.
- **One file per core file or component:**
  - `results.dfy`: the record shared by runner and scorer;
  - the scorer: `scorer.dfy`;
  - the runner: `fileserver.dfy`, `viewer.dfy`, `comparator.dfy` and `orchestrator.dfy`;
  - the web app: `shortcuts.dfy`, `keyboard.dfy`, `editorstore.dfy`, `documentstore.dfy`, `onlyoffice.dfy`, `saveas.dfy`, `statusbar.dfy`, `newdocument.dfy` and `commandpalette.dfy`.

The model takes the form of the code it comes from:

- **Pure computations are functions with lemmas.** These are tier scoring, the routing
  decision, URL building and shortcut matching.
- **Stores and component state are classes.** Their methods state the whole new state.
  The editor store keeps one state record that every action replaces, as Zustand's `set`
  does.
- **In-place algorithms and loops are methods with invariants.** The image crop copies
  row by row into a fresh array. The reference-generation loop, the test loop, the
  keydown loop and the category-grouping loop are each a method proved against a
  specification function.

Outside inputs become parameters:

- for the browser, only the outcome of a capture (success or a message);
- for the PNG and pixel libraries, only the image sizes and a differing-pixel count
  bounded by the compared area;
- for the file system, the set of paths that exist;
- clock readings and UUIDs.

## Model

| member | source | states |
|---|---|---|
| Scorer.OfTierAppend | tests/docx-compat/score-results.ts:83 | the tier filter distributes over concatenation |
| Scorer.OfTierOnlyTier | tests/docx-compat/score-results.ts:83 | every kept result has the tier, and filtering twice is filtering once |
| Scorer.StatusesPartition | tests/docx-compat/score-results.ts:84-87 | the four status counts add up to the number of results |
| Scorer.ComputeTier | tests/docx-compat/score-results.ts:82-108 | the total is the tier's size and the four counts add up to it; the skip count is kept even when nothing was evaluated; the rate lies in [0, 1] and is passed over passed + failed + errored; with nothing evaluated, rate 0 and not met; met exactly when something was evaluated and rate >= threshold |
| Scorer.Rate | tests/docx-compat/score-results.ts:95 | the rate times the evaluated count is the passed count, and it lies in [0, 1] |
| Scorer.IgnoresOtherTiers | tests/docx-compat/score-results.ts:83 | inserting a result of another tier anywhere leaves the summary unchanged |
| Scorer.OnlyTierMatters | tests/docx-compat/score-results.ts:83 | summarising the pre-filtered tier gives the same summary |
| Scorer.HighBoundaryMeets | tests/docx-compat/score-results.ts:18 | 9 passes and 1 error in the high tier give rate 0.9, which meets the inclusive 0.90 threshold |
| Scorer.CriticalEighteenOfTwentyMisses | tests/docx-compat/score-results.ts:17 | 18 of 20 critical passes give rate 0.9, below 0.95 |
| Scorer.CriticalAllPassMeets | tests/docx-compat/score-results.ts:95-106 | three of three critical passes give rate 1 and meet the threshold |
| Scorer.MediumMeetsIffEvaluated | tests/docx-compat/score-results.ts:90-93 | with threshold 0, the medium tier meets its threshold exactly when something was evaluated |
| Scorer.ComputeOverall | tests/docx-compat/score-results.ts:357-379 | the overall counts partition all results, the total is the file's total, and the rate is OverallRate of the counts |
| Scorer.OverallRate | tests/docx-compat/score-results.ts:361-363 | the overall rate is 1.0 when nothing was evaluated, otherwise passed over evaluated, always in [0, 1] |
| Scorer.BuildReport | tests/docx-compat/score-results.ts:351-382 | the report holds the three tier summaries with thresholds 0.95, 0.90 and 0; it passes iff critical and high both meet theirs; it copies the run's metadata and results |
| Scorer.VerdictIgnoresMedium | tests/docx-compat/score-results.ts:351-364 | inserting a medium result never changes the verdict |
| Scorer.NothingEvaluatedFailsGate | tests/docx-compat/score-results.ts:90-93 | a run with no evaluated critical result fails the gate |
| Scorer.Score | tests/docx-compat/score-results.ts:342-405 | a missing or unparsable results file exits 1 with no report; otherwise exit 1 iff the report did not pass; the exit code is 0 or 1 |
| Scorer.ExitZeroIffGatesMet | tests/docx-compat/score-results.ts:397-399 | exit 0 iff the file was loaded and the critical and high tiers both meet their thresholds |
| Scorer.EscapeHtmlAppend | tests/docx-compat/score-results.ts:289-296 | escaping works piece by piece |
| Scorer.EscapeHtmlOneChar | tests/docx-compat/score-results.ts:289-296 | one character escapes to its own entity; the later passes leave the entities of earlier ones alone |
| Scorer.EscapeHtmlIsPerChar | tests/docx-compat/score-results.ts:289-296 | the five chained global replacements equal a single per-character replacement, because `&` goes first |
| Scorer.EscapeHtmlSafe | tests/docx-compat/score-results.ts:289-296 | escaped text contains no `<`, `>`, `"` or `'` |
| Scorer.EscapeHtmlRoundTrip | tests/docx-compat/score-results.ts:289-296 | decoding the five entities restores the input, so nothing is escaped twice |
| Text.TrimShape | apps/web/src/components/FileManager/SaveAsDialog.tsx:46 | `trim` removes a run of JavaScript white space at each end and nothing else |
| Text.TrimIdempotent | apps/web/src/components/StatusBar/StatusBar.tsx:24-25 | trimming twice is trimming once |
| Text.LowerIdempotent | apps/web/src/lib/shortcuts.ts:51 | lower-casing twice is lower-casing once |
| Text.SplitJoin | apps/web/src/components/CommandPalette/CommandPalette.tsx:91 | splitting a joined list at the separator restores the list when no part holds the separator |
| Text.JoinSplit | apps/web/src/components/CommandPalette/CommandPalette.tsx:91 | joining the pieces of a split restores the string |
| Text.NatToString | tests/docx-compat/run-tests.ts:115 | the decimal rendering of the port is a non-empty run of digits |
| PosixPath.Normalize | tests/docx-compat/run-tests.ts:72 | the normal form of an absolute path has no empty, `.` or `..` segment and no `/` inside a segment |
| PosixPath.JoinUnder | tests/docx-compat/run-tests.ts:72 | joining a non-empty relative path under a directory resolves its pieces from the directory's segments |
| PosixPath.PrefixTestIff | tests/docx-compat/run-tests.ts:74 | the string test `startsWith(root + "/")` holds iff the path is strictly below root, or is root itself with a trailing slash |
| PosixPath.BasenameOfRendered | tests/docx-compat/run-tests.ts:86-97 | `basename` of a normalised path is its last segment, and `extname` is that segment's extension |
| PosixPath.SegmentExt | tests/docx-compat/run-tests.ts:86 | the extension is empty, or is a dot, free of further dots, that ends the segment |
| UriEncoding.Utf8RoundTrip | tests/docx-compat/run-tests.ts:72 | every character's UTF-8 encoding decodes back to it |
| UriEncoding.DecodeEncode | tests/docx-compat/run-tests.ts:72 | decoding an encoded component gives it back |
| UriEncoding.DecodeTwiceEncodeTwice | tests/docx-compat/run-tests.ts:114-116 | a twice-encoded component decodes, in two steps, to the once-encoded one and then to the original |
| UriEncoding.EncodeHasNoDelimiters | tests/docx-compat/run-tests.ts:114-126 | an encoded component holds none of `& = / ? # :` |
| UriEncoding.EncodeUnreservedIdentity | tests/docx-compat/run-tests.ts:115 | a string of unreserved characters encodes to itself |
| FileServer.ContentType | tests/docx-compat/run-tests.ts:86-92 | the Word MIME type iff the lower-cased extension is `.docx`, `application/msword` iff `.doc`, octet-stream otherwise |
| FileServer.NoUrlNotFound | tests/docx-compat/run-tests.ts:66-70 | a request without a URL gets 404 "Not found" |
| FileServer.DecideRule | tests/docx-compat/run-tests.ts:74-100 | as written: 403 iff the resolved path is neither strictly below the corpus nor the corpus directory with a trailing slash; 404 or 200 by existence; a 200 carries the path, its content type, `*` origin and an attachment named by the last segment |
| FileServer.DecideStrictRule | tests/docx-compat/run-tests.ts:74-100 | corrected: 403 iff not strictly below the corpus; every 200 serves a path below the corpus directory other than the directory itself |
| FileServer.RoutesAgreeBelowRoot | tests/docx-compat/run-tests.ts:72-100 | the two handlers answer alike for every request that does not resolve to the corpus directory |
| FileServer.RouteStrictContained | tests/docx-compat/run-tests.ts:72-100 | whatever the request, the corrected handler streams only existing paths strictly below the corpus directory |
| FileServer.RootRequestForbidden | tests/docx-compat/run-tests.ts:72-78 | `GET /` gets 403 |
| FileServer.ClimbForbidden | tests/docx-compat/run-tests.ts:72-78 | a request decoding to `../../x` or `../../x/y` gets 403 |
| FileServer.PlainTraversalForbidden | tests/docx-compat/run-tests.ts:72-78 | `/../../etc/passwd` gets 403 |
| FileServer.EncodedTraversalForbidden | tests/docx-compat/run-tests.ts:72-78 | the percent-encoded form of `../../etc/passwd` gets 403 as well |
| FileServer.DotTarget | tests/docx-compat/run-tests.ts:72 | `path.join(CORPUS_DIR, "./")` is the corpus directory with a trailing slash |
| FileServer.DotRequestAsWritten | tests/docx-compat/run-tests.ts:72-100 | as written, `GET /./` passes the containment check and gets 200, with the corpus directory itself as the path handed to `createReadStream` |
| FileServer.MalformedEscapeWritesNothing | tests/docx-compat/run-tests.ts:66-72 | a malformed percent-escape makes `decodeURIComponent` throw in the listener, so neither handler writes any status |
| FileServer.DotRequestStrict | tests/docx-compat/run-tests.ts:74-78 | the corrected check refuses `GET /./` with 403 |
| Viewer.ParseRenderQuery | tests/docx-compat/run-tests.ts:121-130 | reading a rendered query back gives its parameters when no name holds `&` or `=` and no value holds `&` |
| Viewer.TemplateIsQuery | tests/docx-compat/run-tests.ts:121-130 | the URL template is the editor page, `?`, and the seven parameters in order |
| Viewer.BuildIsQuery | tests/docx-compat/run-tests.ts:113-131 | `buildOnlyOfficeUrl` is the editor page with the seven viewer parameters as its query |
| Viewer.TemplateRoundTrip | tests/docx-compat/run-tests.ts:121-130 | with no `&` in a value, the template's query reads back to its parameters |
| Viewer.TemplateContents | tests/docx-compat/run-tests.ts:121-130 | a reader recovers the file type, `documentType=word`, `mode=view`, `lang=en`, and the raw key and document URL unchanged once decoded |
| Viewer.ViewerUrlContents | tests/docx-compat/run-tests.ts:113-131 | the viewer URL carries the lower-cased extension, the fixed parameters, the key `filename + now` encoded once, and the file-server URL encoded twice |
| Viewer.DecodeFileServerUrl | tests/docx-compat/run-tests.ts:114-116 | decoding the inner URL gives the host, the port and then the plain file name, so the server sees the name encoded exactly once |
| Viewer.FileTypeOf | tests/docx-compat/run-tests.ts:117 | the file type of `stem.ext` is `ext` lower-cased, without the dot |
| Comparator.ValidPngRows | tests/docx-compat/run-tests.ts:174-175 | a decoded image is `height` rows of `width * 4` bytes |
| Comparator.Min | tests/docx-compat/run-tests.ts:178-179 | the smaller of the two sizes |
| Comparator.CropPixel | tests/docx-compat/run-tests.ts:203-207 | pixel (x, y) of the crop is pixel (x, y) of the source, channel by channel |
| Comparator.CropWhole | tests/docx-compat/run-tests.ts:181-183 | an image already of the region's size is its own crop |
| Comparator.CropImage | tests/docx-compat/run-tests.ts:203-207 | a fresh buffer holding the top-left `width x height` region, row by row |
| Comparator.CopyCropRow | tests/docx-compat/run-tests.ts:205 | appends the next row of the crop to the rows already copied |
| Comparator.CopyRow | tests/docx-compat/run-tests.ts:205 | copies one row's bytes and leaves the bytes before it as they were |
| Comparator.RegionData | tests/docx-compat/run-tests.ts:181-183 | the compared buffer is the crop, and is the image's own data when its size already matches |
| Comparator.DiffRatio | tests/docx-compat/run-tests.ts:194-195 | NaN iff the region is empty; otherwise a share in [0, 1] that times the area gives the differing pixels |
| Comparator.Compare | tests/docx-compat/run-tests.ts:177-200 | the region is the minimum width by the minimum height, and the share is DiffRatio over its area |
| Comparator.PassedIff | tests/docx-compat/run-tests.ts:194-200 | passes iff the region is non-empty and differing pixels <= threshold x area; an empty region never passes |
| Comparator.NoDifferencePasses | tests/docx-compat/run-tests.ts:194-200 | identical non-empty regions pass at any non-negative threshold |
| Comparator.CompareImages | tests/docx-compat/run-tests.ts:169-201 | the two buffers handed to the pixel comparison are the crops of both images to the common region, and the result is Compare of the sizes |
| Comparator.Round | tests/docx-compat/run-tests.ts:244 | `Math.round` is the integer within half of x, halves rounded up |
| Comparator.RoundPercentClose | tests/docx-compat/run-tests.ts:244 | the stored percentage lies within 0.005 of the exact one, in [0, 100], and is a whole number of hundredths |
| Orchestrator.ArtefactNameOfWord | tests/docx-compat/run-tests.ts:217-219 | `stem.docx` and `stem.doc` become `stem` plus the suffix |
| Orchestrator.WordNamesDistinct | tests/docx-compat/run-tests.ts:217-219 | for a Word file name the screenshot, reference and diff names are pairwise distinct |
| Orchestrator.OtherNamesCollide | tests/docx-compat/run-tests.ts:217-219 | for any other name the screenshot path and the diff path are the same file |
| Orchestrator.UpperCaseIsOther | tests/docx-compat/run-tests.ts:217 | `.DOCX` is not recognised, because the pattern is case-sensitive |
| Orchestrator.DocAndDocxShare | tests/docx-compat/run-tests.ts:217-219 | `name.docx` and `name.doc` share their artefact names |
| Orchestrator.RunTest | tests/docx-compat/run-tests.ts:211-275 | error iff the capture threw, or a reference existed and the comparison threw; skip iff captured with no reference, then no reference and no percentage; error keeps the probed flag and the message, and the screenshot only if it exists; pass/fail only with a reference and a comparison, with the diff and screenshot paths |
| Orchestrator.RunTestVerdict | tests/docx-compat/run-tests.ts:243-260 | with a reference, pass iff the region is non-empty and differing pixels <= threshold x area; the stored percentage lies in [0, 100] and is absent for an empty region |
| Orchestrator.Generated | tests/docx-compat/run-tests.ts:290-310 | the files present after the loop are those present before plus those written |
| Orchestrator.GeneratedFresh | tests/docx-compat/run-tests.ts:292-297 | no written reference existed before, and none is written twice |
| Orchestrator.GeneratedTargets | tests/docx-compat/run-tests.ts:290-305 | every written file is the reference of a target-tier entry whose capture succeeded |
| Orchestrator.GeneratedCovers | tests/docx-compat/run-tests.ts:292-309 | every target-tier entry whose capture succeeds ends with its reference present, so one failure does not stop the rest |
| Orchestrator.GenerateReferences | tests/docx-compat/run-tests.ts:279-311 | the loop writes exactly the files Generated describes |
| Orchestrator.MainGeneratesGatedTiersOnly | tests/docx-compat/run-tests.ts:355-357 | in generation mode no medium entry gets a reference |
| Orchestrator.RunAll | tests/docx-compat/run-tests.ts:360-383 | one result per manifest entry in manifest order, `total` is the number of results, and the file records the timestamp, server URL and threshold |
| Orchestrator.TierTotalsFollowManifest | tests/docx-compat/run-tests.ts:363-366 | the scorer's total for each tier is the manifest's number of entries in that tier |
| Orchestrator.RunWithoutReferencesFailsGate | tests/docx-compat/run-tests.ts:230-241 | before any reference exists every captured entry is skipped, and the scorer then fails the gate |
| Orchestrator.RunMain | tests/docx-compat/run-tests.ts:315-393 | exits 1 iff no manifest could be read (missing or unparsable) or the server is unhealthy; otherwise the flag selects generation of the critical and high tiers, or the test loop over every entry |
| EditorStore.ToggledPanel | apps/web/src/store/editorStore.ts:75-76 | closed iff the named panel was open (or none was named), otherwise exactly the named panel |
| EditorStore.ToggleTwiceCloses | apps/web/src/store/editorStore.ts:75-76 | toggling a panel that was not open twice closes the sidebar |
| EditorStore.Patched | apps/web/src/store/editorStore.ts:86 | the supplied formatting fields take their new values and every other field is kept |
| EditorStore.PatchedIdempotent | apps/web/src/store/editorStore.ts:86 | an empty patch changes nothing, and applying a patch twice is applying it once |
| EditorStore.Store.constructor | apps/web/src/store/editorStore.ts:48-68 | the initial state: not ready and not loading, no error, home tab, no sidebar, zoom 100, Times New Roman 12, left alignment |
| EditorStore.Store.SetEditorReady | apps/web/src/store/editorStore.ts:70 | sets ready to r and loading to !r, nothing else |
| EditorStore.Store.SetEditorLoading | apps/web/src/store/editorStore.ts:71 | sets loading only |
| EditorStore.Store.SetEditorError | apps/web/src/store/editorStore.ts:72 | sets the error and always clears loading |
| EditorStore.Store.SetActiveRibbonTab | apps/web/src/store/editorStore.ts:73 | sets the tab only |
| EditorStore.Store.SetSidebarPanel | apps/web/src/store/editorStore.ts:74 | sets the panel only |
| EditorStore.Store.ToggleSidebarPanel | apps/web/src/store/editorStore.ts:75-76 | the panel becomes ToggledPanel of the old one, nothing else changes |
| EditorStore.Store.SetCommandPaletteOpen | apps/web/src/store/editorStore.ts:77 | sets the palette flag only |
| EditorStore.Store.ToggleCommandPalette | apps/web/src/store/editorStore.ts:78-79 | negates the palette flag only |
| EditorStore.Store.ToggleDarkMode | apps/web/src/store/editorStore.ts:80 | negates dark mode only |
| EditorStore.Store.SetDarkMode | apps/web/src/store/editorStore.ts:81 | sets dark mode only |
| EditorStore.Store.SetFindOpen | apps/web/src/store/editorStore.ts:82 | sets the find flag only |
| EditorStore.Store.SetZoomLevel | apps/web/src/store/editorStore.ts:85 | stores the zoom unclamped, nothing else |
| EditorStore.Store.SetFormatState | apps/web/src/store/editorStore.ts:86 | the new state is Patched of the old |
| EditorStore.TogglePaletteTwice | apps/web/src/store/editorStore.ts:78-79 | toggling the palette twice restores the whole store |
| EditorStore.ToggleDarkModeTwice | apps/web/src/store/editorStore.ts:80 | toggling dark mode twice restores the whole store |
| DocumentStore.Blank | apps/web/src/store/documentStore.ts:25-34 | no document and not dirty; the title is `Untitled Document` with the sample and callback URLs; 0 words, page 1 of 1; the key is `doc_` + the UUID |
| DocumentStore.PageInfo | apps/web/src/store/documentStore.ts:46-47 | each page number is raised to at least 1 separately, and nothing else changes |
| DocumentStore.PageBeyondCount | apps/web/src/store/documentStore.ts:46-47 | the current page is not kept within the page count |
| DocumentStore.Store.constructor | apps/web/src/store/documentStore.ts:25-34 | the store starts as Blank, with valid counters |
| DocumentStore.Store.SetDocument | apps/web/src/store/documentStore.ts:36-42 | takes the document, its title, URL and key; counts, callback URL and dirty flag stay |
| DocumentStore.Store.SetDocumentTitle | apps/web/src/store/documentStore.ts:44 | sets the title only |
| DocumentStore.Store.SetWordCount | apps/web/src/store/documentStore.ts:45 | stores max(0, count) |
| DocumentStore.Store.SetPageInfo | apps/web/src/store/documentStore.ts:46-47 | the new state is PageInfo of the old |
| DocumentStore.Store.SetDirty | apps/web/src/store/documentStore.ts:48 | sets the dirty flag only |
| DocumentStore.Store.NewDocument | apps/web/src/store/documentStore.ts:56-67 | resets everything to Blank with a fresh key, whatever was open |
| DocumentStore.BlankKeysDiffer | apps/web/src/store/documentStore.ts:56-67 | new documents made from different UUIDs get different keys and the same shared sample URL |
| OnlyOffice.SchemeIgnoresCase | apps/web/src/lib/onlyoffice.ts:10 | the scheme test `/^https?:\/\//i` ignores case |
| OnlyOffice.StripTrailingSlash | apps/web/src/lib/onlyoffice.ts:15 | exactly one trailing `/` is removed if present, and the input is otherwise kept |
| OnlyOffice.StripOneSlashOnly | apps/web/src/lib/onlyoffice.ts:15 | two trailing slashes leave one |
| OnlyOffice.StripKeepsScheme | apps/web/src/lib/onlyoffice.ts:10-15 | stripping keeps the scheme of anything longer than a bare `https://` |
| OnlyOffice.BareSchemeStripped | apps/web/src/lib/onlyoffice.ts:10-15 | a bare `http://` passes the check but loses its scheme once stripped |
| OnlyOffice.Configure | apps/web/src/lib/onlyoffice.ts:9-39 | succeeds iff the server URL (default when unset) has an http(s) scheme, and the app URL is unset, empty or http(s); on success both are stripped, the script URL is the server plus the API path, and the token is kept |
| OnlyOffice.ConfigureDefaults | apps/web/src/lib/onlyoffice.ts:9-18 | with nothing set, the localhost defaults are used |
| OnlyOffice.ConfigureRefusesScript | apps/web/src/lib/onlyoffice.ts:10-14 | a `javascript:` server URL is refused |
| OnlyOffice.ConfigureEmptyAppUrl | apps/web/src/lib/onlyoffice.ts:19-33 | an empty app URL is not checked and becomes the empty base |
| OnlyOffice.ApiScriptNoDoubleSlash | apps/web/src/lib/onlyoffice.ts:15-16 | a server URL with one trailing slash gives a script URL with no double slash |
| OnlyOffice.GenerateDocumentKey | apps/web/src/lib/onlyoffice.ts:56-60 | the key is `doc_` followed by the UUID |
| OnlyOffice.DocumentKeysDistinct | apps/web/src/lib/onlyoffice.ts:59 | distinct UUIDs give distinct keys |
| OnlyOffice.ToAbsoluteUrl | apps/web/src/lib/onlyoffice.ts:63-66 | a URL starting with lower-case `http://` or `https://` is kept; otherwise the app URL, a `/` unless the URL already starts with one, then the URL |
| OnlyOffice.ToAbsoluteIdempotent | apps/web/src/lib/onlyoffice.ts:63-66 | when the app URL is absolute, every result is absolute and applying it twice is applying it once |
| OnlyOffice.BuildOOConfig | apps/web/src/lib/onlyoffice.ts:68-129 | the token is present iff one is configured and non-empty; a Word `docx` document with all five permissions; document and callback URLs made absolute; users default to `user-1` and `Sovereign User`; `theme-dark` iff dark mode |
| OnlyOffice.ConfigUrlsAbsolute | apps/web/src/lib/onlyoffice.ts:94-105 | under a valid configuration with an absolute app URL, the server is sent only absolute URLs |
| OnlyOffice.ConnectorCache.constructor | apps/web/src/lib/onlyoffice.ts:174 | no connector is cached and nothing has been executed |
| OnlyOffice.ConnectorCache.Init | apps/web/src/lib/onlyoffice.ts:177-179 | caches whatever the editor creates, or nothing |
| OnlyOffice.ConnectorCache.Destroy | apps/web/src/lib/onlyoffice.ts:182-184 | drops the cached connector |
| OnlyOffice.ConnectorCache.Exec | apps/web/src/lib/onlyoffice.ts:200-215 | with no connector, nothing happens; otherwise exactly one call goes through the cached connector |
| OnlyOffice.ExecAfterDestroyDropped | apps/web/src/lib/onlyoffice.ts:182-215 | after destroy, calls are dropped |
| Shortcuts.MatchesIffChord | apps/web/src/lib/shortcuts.ts:50-59 | an event matches iff the lower-cased keys and all four modifier flags are equal, with an absent flag meaning up |
| Shortcuts.MatchIgnoresCase | apps/web/src/lib/shortcuts.ts:51 | lower-casing the event's key does not change the match |
| Shortcuts.Position | apps/web/src/lib/shortcuts.ts:17-48 | a reference lookup from a chord to a table position below 21 |
| Shortcuts.PositionOfEntry | apps/web/src/lib/shortcuts.ts:17-48 | the lookup finds every entry at its own position |
| Shortcuts.PositionOnlyOfEntry | apps/web/src/lib/shortcuts.ts:17-48 | the lookup gives position i only for the chord of entry i |
| Shortcuts.MatchesIffPosition | apps/web/src/lib/shortcuts.ts:50-59 | an event matches entry i iff the lookup of its chord is i |
| Shortcuts.MatchUnique | apps/web/src/lib/shortcuts.ts:17-59 | no event matches two table entries |
| Shortcuts.ModEntriesNeedMod | apps/web/src/lib/shortcuts.ts:12-46 | every `[MOD]` entry requires Meta on a Mac and Control elsewhere, and no Alt |
| Shortcuts.EscapeNeedsNoModifier | apps/web/src/lib/shortcuts.ts:47-57 | Escape is `close` and matches only with no modifier held |
| Shortcuts.SaveChords | apps/web/src/lib/shortcuts.ts:19-20 | MOD+S in either case matches only Save, and MOD+Shift+S only Save As |
| KeyboardShortcuts.StoreEffects | apps/web/src/hooks/useKeyboardShortcuts.ts:31-70 | find and replace open find; close shuts both the palette and find; the palette action is an involution; the other actions leave the store alone |
| KeyboardShortcuts.EffectsDisjoint | apps/web/src/hooks/useKeyboardShortcuts.ts:15-71 | an action either calls out or changes the store, never both; the font-size and heading actions do neither |
| KeyboardShortcuts.DispatchOfUnique | apps/web/src/hooks/useKeyboardShortcuts.ts:85-104 | when entry i is the only match, it alone decides, subject to focus |
| KeyboardShortcuts.DispatchOfNone | apps/web/src/hooks/useKeyboardShortcuts.ts:85-104 | with no match nothing is dispatched |
| KeyboardShortcuts.DispatchByPosition | apps/web/src/hooks/useKeyboardShortcuts.ts:85-104 | over the table, the handler dispatches the looked-up entry's action unless focus is in a field and it is neither the palette nor close |
| KeyboardShortcuts.InputFieldSilences | apps/web/src/hooks/useKeyboardShortcuts.ts:88-98 | in a text field only the palette and close are dispatched |
| KeyboardShortcuts.PaletteFromInput | apps/web/src/hooks/useKeyboardShortcuts.ts:88-95 | MOD+K toggles the palette even while typing |
| KeyboardShortcuts.EscapeFromInput | apps/web/src/hooks/useKeyboardShortcuts.ts:88-95 | Escape closes even while typing |
| KeyboardShortcuts.HandleKeyDown | apps/web/src/hooks/useKeyboardShortcuts.ts:77-105 | dispatches per Dispatch over the platform's table; default prevented iff something is dispatched; the store and the outside call are the action's, or untouched |
| KeyboardShortcuts.HandleKeyDownOver | apps/web/src/hooks/useKeyboardShortcuts.ts:85-104 | the first-match loop with its `continue` achieves Dispatch over any table |
| KeyboardShortcuts.HandleShortcut | apps/web/src/hooks/useKeyboardShortcuts.ts:13-74 | the store changes as StoreAfter and the outside call is CallOf the action |
| SaveAs.StripReserved | apps/web/src/components/FileManager/SaveAsDialog.tsx:47 | the result holds no reserved character and is no longer than the input |
| SaveAs.StripAppend | apps/web/src/components/FileManager/SaveAsDialog.tsx:47 | stripping works piece by piece |
| SaveAs.StripKeeps | apps/web/src/components/FileManager/SaveAsDialog.tsx:47 | the length is kept iff nothing is reserved, and then the string is unchanged |
| SaveAs.Take | apps/web/src/components/FileManager/SaveAsDialog.tsx:48 | `slice(0, n)` is the prefix of length min(len, n) |
| SaveAs.Sanitize | apps/web/src/components/FileManager/SaveAsDialog.tsx:45-48 | the sanitised name holds none of the reserved characters or control codes, and is at most 255 long |
| SaveAs.SanitizeFixedPoints | apps/web/src/components/FileManager/SaveAsDialog.tsx:45-48 | a name is unchanged iff it is already clean, trimmed and at most 255 long |
| SaveAs.SanitizeOrderMatters | apps/web/src/components/FileManager/SaveAsDialog.tsx:45-47 | trimming before stripping can leave leading white space; the result is not always a fixed point |
| SaveAs.Dialog.constructor | apps/web/src/components/FileManager/SaveAsDialog.tsx:37-38 | the field starts with the document title and the format with docx |
| SaveAs.Dialog.SetFilename | apps/web/src/components/FileManager/SaveAsDialog.tsx:72 | sets the name only |
| SaveAs.Dialog.SetFormat | apps/web/src/components/FileManager/SaveAsDialog.tsx:81 | sets the format only |
| SaveAs.Dialog.HandleSave | apps/web/src/components/FileManager/SaveAsDialog.tsx:40-54 | the title changes only to a non-empty sanitised name that differs from it; the download in the chosen format is always requested when there is an editor; the dialog closes |
| StatusBar.ZoomOut | apps/web/src/components/StatusBar/StatusBar.tsx:87 | max(25, z - 25), always at least 25 |
| StatusBar.ZoomIn | apps/web/src/components/StatusBar/StatusBar.tsx:119 | min(200, z + 25), always at most 200 |
| StatusBar.ZoomStaysInRange | apps/web/src/components/StatusBar/StatusBar.tsx:84-124 | the buttons keep an in-range zoom in range and pull one from outside back to the nearer end |
| StatusBar.ZoomRoundTrips | apps/web/src/components/StatusBar/StatusBar.tsx:84-124 | in then out returns z for z in 25..175; out then in returns z for z in 50..200 |
| StatusBar.ZoomRoundTripEnds | apps/web/src/components/StatusBar/StatusBar.tsx:84-124 | at 200 and 25 the round trip does not come back |
| StatusBar.PresetsOnSlider | apps/web/src/components/StatusBar/StatusBar.tsx:9 | every preset lies in the slider's 25..200 and on its step of 5 |
| StatusBar.ApplyZoom | apps/web/src/components/StatusBar/StatusBar.tsx:16-19 | the store takes the zoom, nothing else, and the editor is sent `Zoom` with the same value when a connector is cached |
| StatusBar.ClickZoomOut | apps/web/src/components/StatusBar/StatusBar.tsx:87 | the stored zoom becomes ZoomOut of the old one, and that value is sent as `Zoom` through the cached connector when there is one |
| StatusBar.ClickZoomIn | apps/web/src/components/StatusBar/StatusBar.tsx:119 | the stored zoom becomes ZoomIn of the old one, and that value is sent as `Zoom` through the cached connector when there is one |
| StatusBar.ClickPreset | apps/web/src/components/StatusBar/StatusBar.tsx:128-131 | the stored zoom becomes the preset, which lies in the slider's range; the preset is sent as `Zoom` through the cached connector when there is one, and the cache itself is kept |
| StatusBar.CommittedTitle | apps/web/src/components/StatusBar/StatusBar.tsx:23-28 | the trimmed draft if it is non-empty, otherwise the old title |
| StatusBar.CommitSettles | apps/web/src/components/StatusBar/StatusBar.tsx:23-26 | a committed title is trimmed, so committing it again changes nothing |
| StatusBar.TitleEditor.constructor | apps/web/src/components/StatusBar/StatusBar.tsx:20-21 | not editing, with the draft set to the title |
| StatusBar.TitleEditor.Click | apps/web/src/components/StatusBar/StatusBar.tsx:70-73 | starts editing with the draft set to the title |
| StatusBar.TitleEditor.Change | apps/web/src/components/StatusBar/StatusBar.tsx:61 | sets the draft only |
| StatusBar.TitleEditor.Commit | apps/web/src/components/StatusBar/StatusBar.tsx:23-28 | the title becomes CommittedTitle, nothing else in the store changes, and editing ends |
| StatusBar.TitleEditor.KeyDown | apps/web/src/components/StatusBar/StatusBar.tsx:30-36 | Enter commits; Escape resets the draft to the title and leaves the store alone; other keys do nothing |
| NewDocument.CreatedTitle | apps/web/src/components/FileManager/NewDocumentDialog.tsx:24 | never empty, and equal to the draft iff the draft is non-empty |
| NewDocument.BlankNameKept | apps/web/src/components/FileManager/NewDocumentDialog.tsx:24 | a whitespace-only draft is kept as the title |
| NewDocument.Created | apps/web/src/components/FileManager/NewDocumentDialog.tsx:22-24 | the store is Blank with a fresh key, except that the title is CreatedTitle of the draft |
| NewDocument.CreatedForgetsPrevious | apps/web/src/components/FileManager/NewDocumentDialog.tsx:22-24 | after creating: no document, not dirty, the sample URL, valid counters |
| NewDocument.Dialog.constructor | apps/web/src/components/FileManager/NewDocumentDialog.tsx:19 | the field starts as `Untitled Document` |
| NewDocument.Dialog.SetTitle | apps/web/src/components/FileManager/NewDocumentDialog.tsx:50 | sets the field |
| NewDocument.Dialog.HandleCreate | apps/web/src/components/FileManager/NewDocumentDialog.tsx:22-27 | the store becomes Created of the draft, the dialog closes and the field resets |
| NewDocument.Dialog.HandleKeyDown | apps/web/src/components/FileManager/NewDocumentDialog.tsx:29-31 | Enter performs exactly the create action; other keys change nothing |
| CommandPalette.Categories | apps/web/src/components/CommandPalette/CommandPalette.tsx:49-55 | every key listed is the category of some command |
| CommandPalette.Group | apps/web/src/components/CommandPalette/CommandPalette.tsx:50-54 | a group holds only commands of its category |
| CommandPalette.CategoriesExact | apps/web/src/components/CommandPalette/CommandPalette.tsx:50-54 | each category is listed once, and every command's category is listed |
| CommandPalette.CategoriesPrefix | apps/web/src/components/CommandPalette/CommandPalette.tsx:50-55 | more commands only add categories at the end, in first-occurrence order |
| CommandPalette.GroupAppend | apps/web/src/components/CommandPalette/CommandPalette.tsx:53 | grouping distributes over concatenation, so a group keeps input order |
| CommandPalette.GroupNonEmpty | apps/web/src/components/CommandPalette/CommandPalette.tsx:52-54 | a group is non-empty iff its category is listed |
| CommandPalette.InOwnGroup | apps/web/src/components/CommandPalette/CommandPalette.tsx:50-54 | each command is in the group of its category and in no other |
| CommandPalette.GroupSizesSum | apps/web/src/components/CommandPalette/CommandPalette.tsx:51-54 | the group sizes add up to the number of commands |
| CommandPalette.BuildCategories | apps/web/src/components/CommandPalette/CommandPalette.tsx:49-56 | the map's keys are exactly the categories in first-occurrence order, and each maps to its group |
| CommandPalette.ItemValue | apps/web/src/components/CommandPalette/CommandPalette.tsx:91 | the value starts with the label and a space |
| CommandPalette.ItemValueNoKeywords | apps/web/src/components/CommandPalette/CommandPalette.tsx:91 | without keywords the value is the label and a space |
| CommandPalette.ItemValueKeywords | apps/web/src/components/CommandPalette/CommandPalette.tsx:91 | keywords without spaces read back from the value |
| CommandPalette.PaletteStaysClosed | apps/web/src/components/CommandPalette/CommandPalette.tsx:20-37 | no callback reopens a closed palette; `find` opens find and closes the palette; set-zoom stores its value |
| CommandPalette.RunCommand | apps/web/src/components/CommandPalette/CommandPalette.tsx:39-46 | the palette closes, nothing else changes, and the action is scheduled after 50 ms |
| CommandPalette.Find | apps/web/src/components/CommandPalette/CommandPalette.tsx:26-29 | opens find and closes the palette, nothing else |
| CommandPalette.Perform | apps/web/src/components/CommandPalette/CommandPalette.tsx:20-37 | a callback changes the editor store as EditorAfter, resets the document store only for new-document, and makes CallOf's outside call |
| CommandPalette.Select | apps/web/src/components/CommandPalette/CommandPalette.tsx:92 | selecting an item closes the palette and then runs its callback: the editor store as EditorAfter of the closed palette, which stays closed; the document store reset to Blank only for new-document; CallOf's outside call |

## Left out

- I/O is not modelled: reading and writing JSON, HTTP listening and streaming, `process.exit`, `console` output and the `checkOnlyOffice` health request. The model replaces them with parameters: the set of existing paths, the parsed manifest or results, a health flag and an exit code.
- Browser automation is not modelled: navigation, `waitForDocumentReady` and its timeouts, and screenshot capture. Each entry's observation is a parameter: the capture succeeded or threw with a message, and the comparison gave sizes and a differing-pixel count or threw.
- The pixelmatch algorithm and PNG decoding and encoding are not modelled. The differing-pixel count is a natural number no larger than the compared area, which is all the arithmetic needs.
- Writing the diff image is left out, because its content comes from pixelmatch.
- Report presentation is not modelled: `generateHTML`, the badges, `progressBar` and `printSummary`. Only `escapeHtml` and the data the report carries are modelled.
- `Date.now()`, `new Date().toISOString()`, `crypto.randomUUID()` and the test durations are parameters.
- `loadOOScript` is not modelled, because it is promise caching and `<script>` injection in the DOM.
- The `execFormat` calls in the keydown handler are modelled as opaque outside calls: `onlyoffice.ts` does not export `execFormat`. The same holds for `window.editor` calls and `document.execCommand`.
- Numbers are modelled as mathematical reals and integers, not as IEEE doubles. The rates are exact for the small counts involved, and NaN (0 / 0 for an empty region) is its own value.
- Strings are sequences of characters, and lengths count characters, not UTF-16 code units. `toLowerCase` is modelled on ASCII letters only; no other letter in the shortcut table or in URL schemes changes case.
- `decodeURIComponent` throwing on a malformed escape is modelled as a `Thrown` response, which writes no status. What Node then does with the uncaught exception is not modelled.
- `Orchestrator.RunMain`: models only the two explicit `process.exit(1)` paths and an unparsable manifest. A file server that cannot listen, a failed `chromium.launch` and a failed results write also end in exit 1 through `main().catch`, and are not modelled.
- After a 200 the handler pipes `fs.createReadStream` with no error listener. A directory path makes that stream fail with EISDIR, and that failure is not modelled; the model stops at the status and the path.
- The library-defined fields are renamed: the command item's `label` is called `caption` and the permission `print` is called `printing`, because both are Dafny keywords.
- Cancel and the dialogs' `onOpenChange` rendering are not modelled, nor is any React rendering beyond the state each handler sets.
- The palette's callbacks run after a 50 ms `setTimeout`. The model returns the scheduled callback and the delay, and `Perform` runs it later as its own step.
- `OnlyOffice.ConnectorCache.Exec` follows the code, not the doc comment above it. The comment promises a fallback to a fresh `createConnector()` call, but the code returns early when nothing is cached.
- The shortcut table's entries for layout-dependent keys (`.` and `,` with Shift) are matched on the key value the event reports. Keyboard layouts are not modelled.
- `PosixPath.Normalize`: covers absolute paths only, which is every path the file server builds because `CORPUS_DIR` is absolute. Relative paths and the Windows `path.win32` rules are not modelled, so `path.sep` is `/`.
- `Shortcuts.Position`: states only the range of the lookup; what it finds is stated by `Shortcuts.PositionOfEntry` and `Shortcuts.PositionOnlyOfEntry`.
- `CommandPalette.Categories`: its own contract states only that each key is some command's category; exactness and order are in `CommandPalette.CategoriesExact` and `CommandPalette.CategoriesPrefix`.

## Findings

| source | as written | input that shows it | evidently intended | confidence | as-written member | corrected member |
|---|---|---|---|---|---|---|
| tests/docx-compat/run-tests.ts:72-100 | the containment check `filePath.startsWith(CORPUS_DIR + path.sep)` accepts the corpus directory itself when `path.join` keeps a trailing separator | `GET /./` (also `/x/../`) resolves to `CORPUS_DIR + "/"`, passes the check and exists, so the handler answers 200 and then fails with an unhandled EISDIR stream error | only paths strictly below the corpus directory are served; the directory itself gets 403 like `GET /` | not executed; follows from Node's documented `path.join` behaviour | FileServer.DotRequestAsWritten | FileServer.RouteStrictContained |
