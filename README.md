# Theme check reporting and local asset serving

This project models two parts of the Shopify CLI theme tooling in Dafny.

- **Theme check reporting** (`packages/theme/src/cli/services/check.ts`, as its test file
  `check.test.ts` pins it down):
  - `sortOffenses` groups the offenses of a theme check run by absolute path. It then orders
    each file's offenses by severity: errors, then warnings, then infos.
  - `formatOffenses` renders a file's offenses as styled text segments, five per offense.
  - `formatSummary` writes the "files inspected / offenses found" summary.
  - `formatOffensesJson` builds the JSON report, one record per file with per-severity counts.
  - `handleExit` decides the process exit code from the most severe offense and the
    configured fail level.
- **Local asset handler** (`getAssetsHandler` in `local-assets.ts`): the dev-server middleware
  that serves files of the local theme for `/cdn/.../assets/<name>` requests instead of the
  Shopify CDN.

## Files

| file | module | contents |
|---|---|---|
| `wrappers.dfy` | `Wrappers` | `Option` |
| `offenses.dfy` | `Offenses` | severities, positions, offenses, fail levels |
| `decimal.dfy` | `Decimal` | decimal rendering of naturals (JavaScript template interpolation of a count) and its inverse |
| `strings.dfy` | `Strings` | prefix test and `String.prototype.trim` |
| `sort_offenses.dfy` | `Sorting` | the grouped object as an ordered list of entries, grouping, the stable severity sort |
| `format_text.dfy` | `FormatText` | text segments and the summary |
| `format_json.dfy` | `FormatJson` | the JSON report |
| `handle_exit.dfy` | `HandleExit` | the exit code |
| `local_assets.dfy` | `LocalAssets` | the URL pattern, routing, the request handler, content and metadata |

**Grouped object.** A JavaScript object keyed by path is modelled as a sequence of
`FileOffenses` entries with distinct paths, kept in order of first appearance. A JavaScript
object lists keys that are not array indices in insertion order, and an absolute path, which
starts with `/`, is never an array index. The tests compare with `toEqual`, which ignores key
order.

**Severity sort.** The sort within a file is a stable insertion sort by severity rank. It is
proved to be a permutation, to be sorted, and to equal the concatenation of the error, warning
and info sub-sequences, each in input order.

**URL pattern.** The pattern `^\/cdn\/.*?\/assets\/([^?]+)(\?|$)` is modelled exactly:
- the lazy `.*?` gives the first position where `/assets/` can begin;
- `.` matches any character except the ECMAScript line terminators;
- the capture is the longest run without `?`, and it must be non-empty;
- the run must be followed by `?` or by the end of the path.

**Handler.** The request event is a class whose response-header map the handler updates in place.

## Model

| member | source | states |
|---|---|---|
| `Offenses.Severity.Label` | packages/theme/src/cli/services/check.test.ts:284-301 | the lowercase severity name written in the JSON report parses back to the same severity |
| `Offenses.RankReversesWeight` | packages/theme/src/cli/services/check.test.ts:147-173 | the sort rank (error first) orders severities exactly opposite to their fail-level weight |
| `Decimal.DigitChar` | packages/theme/src/cli/services/check.test.ts:72 | every digit renders as a decimal digit character |
| `Decimal.NatToString` | packages/theme/src/cli/services/check.test.ts:184-216 | a count renders as a non-empty all-digit string with no leading zero, and 0 renders as exactly `0` |
| `Decimal.ParseNatToString` | packages/theme/src/cli/services/check.test.ts:212-216 | reading a rendered count back gives the count |
| `Decimal.NatToStringInjective` | packages/theme/src/cli/services/check.test.ts:212-216 | distinct counts render differently |
| `Strings.LeadingBlanks` | packages/theme/src/cli/services/check.test.ts:72 | the number of leading whitespace characters: all of them are whitespace and the next one is not |
| `Strings.TrailingBlanks` | packages/theme/src/cli/services/check.test.ts:72 | the same for trailing whitespace |
| `Strings.Trim` | packages/theme/src/cli/services/check.test.ts:72 | the trimmed line is no longer than the line and neither starts nor ends with whitespace |
| `Strings.TrimSpec` | packages/theme/src/cli/services/check.test.ts:72 | trimming yields a contiguous slice of the line that neither starts nor ends with whitespace |
| `Strings.TrimUnchanged` | packages/theme/src/cli/services/check.test.ts:72 | a line without whitespace at its ends (such as `Line2`) is its own trim |
| `Strings.TrimIdempotent` | packages/theme/src/cli/services/check.test.ts:72 | trimming twice is trimming once |
| `Sorting.IndexOf` | packages/theme/src/cli/services/check.test.ts:141-144 | the index of a path's entry in the grouped object, or absent exactly when no entry has that path |
| `Sorting.Push` | packages/theme/src/cli/services/check.test.ts:141-144 | at most one entry is added, every existing entry keeps its path, an added entry comes last and holds just that offense under its path, and distinct keys stay distinct |
| `Sorting.GroupByPath` | packages/theme/src/cli/services/check.test.ts:117-145 | the grouped object has distinct keys and no more entries than there are offenses |
| `Sorting.OfPath` | packages/theme/src/cli/services/check.test.ts:141-144 | the offenses of one path, drawn from the input |
| `Sorting.OfPathAbsent` | packages/theme/src/cli/services/check.test.ts:141-144 | a path that no offense carries has no offenses |
| `Sorting.SortedTail` | packages/theme/src/cli/services/check.test.ts:171-173 | the tail of a severity-ordered list is ordered and ranks no lower than its head |
| `Sorting.OfSeverityCons` | packages/theme/src/cli/services/check.test.ts:303-305 | filtering by severity distributes over a leading offense |
| `Sorting.SeverityPartition` | packages/theme/src/cli/services/check.test.ts:303-305 | error, warning and info counts sum to the number of offenses |
| `Sorting.InsertPermutes` | packages/theme/src/cli/services/check.test.ts:169-173 | inserting an offense adds exactly that offense |
| `Sorting.InsertSorted` | packages/theme/src/cli/services/check.test.ts:169-173 | inserting into a severity-ordered list keeps it ordered |
| `Sorting.SortBySeverity` | packages/theme/src/cli/services/check.test.ts:147-174 | a file's offenses are reordered into a permutation ordered error, warning, info |
| `Sorting.OfSeverityInsert` | packages/theme/src/cli/services/check.test.ts:169-173 | insertion places an offense ahead of all offenses of its own severity that were already placed |
| `Sorting.SortIsStable` | packages/theme/src/cli/services/check.test.ts:147-174 | offenses of equal severity keep their input order |
| `Sorting.OfSeverityEmpty` | packages/theme/src/cli/services/check.test.ts:303-305 | a list without offenses of a severity has none of it |
| `Sorting.BucketsCons` | packages/theme/src/cli/services/check.test.ts:171-173 | an offense that ranks no lower than the rest can head the error/warning/info concatenation |
| `Sorting.BucketsConsError` | packages/theme/src/cli/services/check.test.ts:171-173 | an error ahead of a bucketed list keeps it bucketed |
| `Sorting.BucketsConsWarning` | packages/theme/src/cli/services/check.test.ts:171-173 | a warning ahead of a bucketed list without errors keeps it bucketed |
| `Sorting.BucketsConsInfo` | packages/theme/src/cli/services/check.test.ts:171-173 | an info ahead of a bucketed list of infos keeps it bucketed |
| `Sorting.SortedIsBuckets` | packages/theme/src/cli/services/check.test.ts:171-173 | a stably ordered list is the concatenation of its errors, warnings and infos |
| `Sorting.SortBySeverityIsBuckets` | packages/theme/src/cli/services/check.test.ts:147-174 | the sort equals the reference definition: errors, then warnings, then infos, each in input order |
| `Sorting.SortOffenses` | packages/theme/src/cli/services/check.test.ts:117-174 | one entry per file of the grouping, with the same paths in the same order, so the keys stay distinct |
| `Sorting.PathsOfSnoc` | packages/theme/src/cli/services/check.test.ts:141-144 | appending an offense adds its path to the set of paths |
| `Sorting.OfPathSnoc` | packages/theme/src/cli/services/check.test.ts:141-144 | appending an offense extends its own path's offenses only |
| `Sorting.PushExisting` | packages/theme/src/cli/services/check.test.ts:141-144 | appending an offense to an existing key keeps the grouping invariant |
| `Sorting.PushNew` | packages/theme/src/cli/services/check.test.ts:141-144 | adding a new key for an unseen path keeps the grouping invariant |
| `Sorting.GroupByPathSpec` | packages/theme/src/cli/services/check.test.ts:117-145 | grouping yields distinct keys, exactly the input's paths, each holding that path's offenses in input order |
| `Sorting.SortOffensesSpec` | packages/theme/src/cli/services/check.test.ts:117-174 | the sorted object has distinct keys, exactly the input's paths, and each file's offenses are that file's errors, warnings, infos in input order |
| `Sorting.SortOffensesLookup` | packages/theme/src/cli/services/check.test.ts:141-144 | looking up a path gives its sorted offenses, or nothing when no offense has that path |
| `Sorting.ErrorsFirst` | packages/theme/src/cli/services/check.test.ts:171-173 | within a file no non-error precedes an error |
| `Sorting.SortOffensesPermutes` | packages/theme/src/cli/services/check.test.ts:117-174 | each file's sorted offenses are a permutation of that file's input offenses |
| `Sorting.SortOffensesByPathExample` | packages/theme/src/cli/services/check.test.ts:117-145 | offenses of two files land under their own paths |
| `Sorting.SortOffensesSeverityExample` | packages/theme/src/cli/services/check.test.ts:147-174 | a warning listed before an error of the same file comes after it |
| `FormatText.FormatOffenses` | packages/theme/src/cli/services/check.test.ts:49-112 | five segments per offense |
| `FormatText.SegmentsAt` | packages/theme/src/cli/services/check.test.ts:101-112 | segment `5i+k` is segment `k` of offense `i`'s rendering |
| `FormatText.FormatOffensesAt` | packages/theme/src/cli/services/check.test.ts:68-74 | offense `i` renders as severity tag, bold check name, subdued message, location line, and a separator that is empty for the last offense |
| `FormatText.LocationLine` | packages/theme/src/cli/services/check.test.ts:64-72 | the location prints the 0-based line number plus one as a decimal numeral without leading zeros, and the shown text is the trimmed file line at that printed number minus one |
| `FormatText.SeparatorsBetween` | packages/theme/src/cli/services/check.test.ts:101-112 | the separator after an offense is empty exactly for the last offense |
| `FormatText.SeverityTag` | packages/theme/src/cli/services/check.test.ts:69-107 | the error style and `[error]` exactly for errors; the warning style and `[warning]` otherwise, each after a newline |
| `FormatText.Snippet` | packages/theme/src/cli/services/check.test.ts:64-72 | the shown source line is empty when the line is out of range; otherwise it is that line of the file, counted from 0, trimmed |
| `FormatText.OffenseSegments` | packages/theme/src/cli/services/check.test.ts:68-74 | an offense renders as five segments, the last being empty exactly when it is the last offense |
| `FormatText.FormatSummary` | packages/theme/src/cli/services/check.test.ts:177-218 | two lines without offenses and four with; the first names the number of inspected files, and the second says that no offenses were found when there are none |
| `FormatText.FormatSummaryCounts` | packages/theme/src/cli/services/check.test.ts:210-217 | with offenses, the second line gives the total number of offenses and the number of files as numerals, and the third and fourth give the numbers of errors and of warnings |
| `FormatText.DistinctKeyCount` | packages/theme/src/cli/services/check.test.ts:214 | a grouped object with distinct keys has as many files as entries |
| `FormatText.SummaryOfSorted` | packages/theme/src/cli/services/check.test.ts:210-217 | for the sorted grouping, the summary's file count is the number of distinct paths, and errors plus warnings never exceed the total |
| `FormatText.FormatOffensesExample` | packages/theme/src/cli/services/check.test.ts:49-75 | the single-offense rendering case, segment for segment |
| `FormatText.FormatTwoOffensesExample` | packages/theme/src/cli/services/check.test.ts:77-112 | the two-offense rendering case, segment for segment |
| `FormatText.TwoOffenses` | packages/theme/src/cli/services/check.test.ts:77-112 | two offenses of one file render as the first's block, marked not last, followed by the second's, marked last |
| `FormatText.SecondLineLocation` | packages/theme/src/cli/services/check.test.ts:64-72 | line 1 of `Line1\nLine2\nLine3` renders as `2  Line2` |
| `FormatText.ThirdLineLocation` | packages/theme/src/cli/services/check.test.ts:105-110 | line 2 of `Line1\nLine2\nLine3` renders as `3  Line3` |
| `FormatText.FormatSummaryExample` | packages/theme/src/cli/services/check.test.ts:177-218 | the two summary cases, line for line |
| `FormatJson.OffensesJson` | packages/theme/src/cli/services/check.test.ts:283-302 | one JSON record per offense, in order, carrying its check, lowercase severity, start and end row/column, and message |
| `FormatJson.OffenseJson` | packages/theme/src/cli/services/check.test.ts:284-301 | the JSON record of an offense reports its check, lowercase severity, start and end row/column, and message |
| `FormatJson.Count` | packages/theme/src/cli/services/check.test.ts:303-305 | a per-severity count never exceeds the number of offenses |
| `FormatJson.FileJson` | packages/theme/src/cli/services/check.test.ts:280-306 | a file's record keeps its path, has one reporting JSON offense per offense in order, and its three counts sum to the number of offenses |
| `FormatJson.FormatOffensesJson` | packages/theme/src/cli/services/check.test.ts:254-307 | one record per file, in order, with the file's path and one JSON offense per offense reporting it |
| `FormatJson.RecordCounts` | packages/theme/src/cli/services/check.test.ts:303-305 | each record's error, warning and info counts are the file's offenses of that severity, and they sum to its offense count |
| `FormatJson.RecordAt` | packages/theme/src/cli/services/check.test.ts:280-307 | record `i` is the rendering of entry `i` |
| `FormatJson.JsonOfSortedOffenses` | packages/theme/src/cli/services/check.test.ts:254-307 | for a sorted report, each record's path is an input path and its counts are the counts of that path's input offenses |
| `FormatJson.FormatOffensesJsonExample` | packages/theme/src/cli/services/check.test.ts:254-307 | the JSON case, field for field |
| `HandleExit.MostSevere` | packages/theme/src/cli/services/check.test.ts:330-376 | the most severe offense's severity: absent exactly when there are no offenses, present among them, and at least as severe as each |
| `HandleExit.ExitCode` | packages/theme/src/cli/services/check.test.ts:324-376 | the exit code is 0 or 1, and 0 at fail level `crash` |
| `HandleExit.ExitCodeFailsIff` | packages/theme/src/cli/services/check.test.ts:330-376 | the code is 1 exactly when the level is not `crash` and some offense is at least as severe as the level |
| `HandleExit.ExitCodeIgnoresOrder` | packages/theme/src/cli/services/check.test.ts:330-376 | the code does not depend on the order of the offenses |
| `HandleExit.ExitCodeMonotone` | packages/theme/src/cli/services/check.test.ts:330-376 | lowering the fail level never turns a failing run into a passing one |
| `HandleExit.ExitCodeExamples` | packages/theme/src/cli/services/check.test.ts:324-376 | the four exit-code cases |
| `LocalAssets.NameLength` | packages/theme/src/cli/utilities/theme-environment/local-assets.ts:16 | the capture `[^?]+` runs to the first `?` or the end |
| `LocalAssets.FindFrom` | packages/theme/src/cli/utilities/theme-environment/local-assets.ts:16 | the lazy scan finds the first position from `i` where the pattern matches, or reports that none does |
| `LocalAssets.FindMatch` | packages/theme/src/cli/utilities/theme-environment/local-assets.ts:16 | the match position is the first one, or there is none |
| `LocalAssets.FindAssetName` | packages/theme/src/cli/utilities/theme-environment/local-assets.ts:16 | a file name is captured exactly when the pattern matches somewhere, and it is non-empty and free of `?` |
| `LocalAssets.FoundNameShape` | packages/theme/src/cli/utilities/theme-environment/local-assets.ts:16 | the path starts with `/cdn/`, has `/assets/` at the first match position followed by the name, then `?` or the end |
| `LocalAssets.ImmediateMatch` | packages/theme/src/cli/utilities/theme-environment/local-assets.ts:16 | `/cdn//assets/<name>` with or without a query yields `<name>` |
| `LocalAssets.NameLengthOf` | packages/theme/src/cli/utilities/theme-environment/local-assets.ts:16 | the capture over a name followed by a query stops at the query |
| `LocalAssets.AssetKey` | packages/theme/src/cli/utilities/theme-environment/local-assets.ts:17 | the file key is `assets/` followed by exactly the captured name |
| `LocalAssets.BypassImage` | packages/theme/src/cli/utilities/theme-environment/local-assets.ts:21 | a request is left to the CDN exactly when the MIME type starts with `image/` and the path contains `&` |
| `LocalAssets.Route` | packages/theme/src/cli/utilities/theme-environment/local-assets.ts:13-25 | a request is served only for GET, only for an `assets/` key the local theme has, never for a filtered image, and with the looked-up MIME type |
| `LocalAssets.RouteServesIff` | packages/theme/src/cli/utilities/theme-environment/local-assets.ts:13-25 | a request is served with a given key and type exactly when all of the handler's conditions hold for them |
| `LocalAssets.Event.constructor` | packages/theme/src/cli/utilities/theme-environment/local-assets.ts:12 | a fresh event carries its method and path and no response headers |
| `LocalAssets.Event.SetResponseHeader` | packages/theme/src/cli/utilities/theme-environment/local-assets.ts:28 | sets one response header and changes no other |
| `LocalAssets.HandleAssetRequest` | packages/theme/src/cli/utilities/theme-environment/local-assets.ts:12-45 | returns the routing decision, and sets `X-Local-Asset: true` exactly when the asset is served |
| `LocalAssets.GetContents` | packages/theme/src/cli/utilities/theme-environment/local-assets.ts:31-38 | cached non-empty text is rewritten and served; otherwise text read from disk is rewritten and binary content passes unchanged |
| `LocalAssets.CachedText` | packages/theme/src/cli/utilities/theme-environment/local-assets.ts:32-33 | cached text is used exactly when the key has a cached value that is a non-empty string, and it is that value |
| `LocalAssets.CacheWins` | packages/theme/src/cli/utilities/theme-environment/local-assets.ts:32-33 | with cached text the content does not depend on the disk |
| `LocalAssets.TextIsRewritten` | packages/theme/src/cli/utilities/theme-environment/local-assets.ts:31-38 | all served text has gone through the CDN proxy rewrite |
| `LocalAssets.GetMeta` | packages/theme/src/cli/utilities/theme-environment/local-assets.ts:39-42 | the metadata type is always the looked-up MIME type; size and modification time come from the file stats when they are available |

## Left out

- The model follows what `check.test.ts` asserts of the functions of `check.ts`. Where the
  tests leave behaviour open, the model makes these choices:
  - the shown source line is trimmed, and is empty when the offense's line is out of range;
  - `INFO` offenses get the warning tag in the text output;
  - the summary prints the error and warning lines whenever there are offenses, even at zero;
  - the fail-level order is info < suggestion < warning < error, with `crash` never failing;
  - the object of offenses by file passed to the summary has distinct keys, as every JavaScript
    object does.
- `initConfig` and `renderOffensesText`: they write files and call the UI, which is I/O.
- Reading the file for a snippet (`readFileSync`), and `process.exit`, are left out as I/O.
  - The file's lines are a parameter `linesOf`.
  - `handleExit` is modelled as the exit code it would pass.
- The offense's `type` (source code type) field is not modelled: no modelled output reads it.
- `LocalAssets.Route`: `joinPath` is modelled as plain `assets/` + name concatenation.
  Path normalisation of `.` and `..` segments in the captured name is not modelled.
- External functions are not modelled; each member takes what it needs as a parameter:
  - `LocalAssets.Route` and `LocalAssets.HandleAssetRequest` take `lookupMimeType` as a function;
  - `LocalAssets.GetContents` takes the file-system `read` and `injectCdnProxy` as functions;
  - `LocalAssets.GetMeta` takes the outcome of `stat` as a value, `Option<Stats>`, where a
    rejected promise becomes `None`.
- Promises and h3's `serveStatic` streaming and conditional-request handling are not modelled.
- `LocalAssets.HandleAssetRequest`: for a served request, returning the `serveStatic` response is
  represented by the `Serve` outcome.
- The event object's other fields and h3's event-handler wrapper are not modelled.
