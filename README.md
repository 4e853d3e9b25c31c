# Asynchronous CSV export service: a Dafny model

The service lets a client start a CSV export of the `users` table with up to
three filters: country, subscription tier and minimum lifetime value. The
client can then poll the export's progress, download the finished file
(plain, gzip-compressed or by byte range) and cancel the export while it is
still running.

This project models two parts of it:

- the export engine:
  - the job record;
  - the in-memory job registry and its admission counter for at most ten concurrent workers;
  - the builder of the parameterised `WHERE` clause;
  - the paged extraction loop with cooperative cancellation;
  - the artifact path;
- the decisions the four HTTP handlers make.

Collaborators are abstract:

- the database is a row-count function and a page-fetch function;
- the file system is a present/absent flag and a size;
- the clock is a `Time` value passed in;
- the UUID generator's freshness is the precondition `id !in jobs`.

Files, in dependency order:

- `text.dfy` (`Text`): the JavaScript string operations the code relies on:
  - decimal formatting;
  - `parseInt` of a digit-leading string;
  - `split`/`join`, `trim`, `includes`;
  - `replace` of the first match.
- `jobs.dfy` (`Jobs`): the job record, its status and progress, and `getPercentage`.
- `admission.dfy` (`Admission`): the `activeWorkers` counter as a step function, with lemmas over any interleaving of starts and finishes.
- `registry.dfy` (`Registry`): class `JobQueue`. Its `jobs` map and `activeWorkers` are fields, and its methods update them in place.
- `query.dfy` (`Query`):
  - the specification `WhereClauseOf`;
  - the imperative `BuildWhereClause`, which pushes conditions and values with a moving placeholder counter and is proved equal to that specification.
- `extraction.dfy` (`Extraction`):
  - the column and CSV option defaults;
  - the specification of the extraction loop (`Pages`, `Extract`, `Settled`);
  - the imperative `ExportToCsv`, whose `while` loop is proved against that specification;
  - `cancelExport`, the write-stream callbacks and the artifact path.
- `routes.dfy` (`Routes`): POST submission, status report, download decision and DELETE.

A DELETE that arrives while an export is running is modelled by an oracle, `cancelArrives: Option<nat>`. It names the page boundary at which the cancellation lands. `ExportToCsv` performs `CancelExport` on the registry at that boundary, so the loop's own check of the `cancelled` flag sees it the way the real interleaving would.

The model follows the code as written, including where a reader might expect otherwise:

- With `totalRows == 0` the percentage is 0, even though no rows remain (`getPercentage` returns 0 first).
- A job cancelled before it starts, with zero matching rows, never enters the loop. So it is not marked cancelled: it drains, and the write stream then completes it.
- `columns` is split and trimmed but not checked against the known column names.
- `processedRows` can exceed `totalRows` when rows are inserted during the export. Nothing caps it, only the percentage.
- `min_ltv` reaches `buildWhereClause` only when it is non-empty (the POST handler drops empty values). `buildWhereClause` itself tests only that it is defined, and the model keeps that test.
- When `exportToCsv` finds no job, it returns before the `try`. So the admission slot taken by `enqueueJob` is never given back. `RunWhenAdmitted` models this leak as written.
- `startExport` does not wait for admission, but `enqueueJob` takes a free slot synchronously, and the `.then` callback runs the start of `exportToCsv` (up to its first `await`) before the POST handler resumes. So the POST answer reads `processing` whenever a slot was free, and `pending` only when all ten slots are taken. `StartExport` and `PostExport` state this.
- The bound of ten holds for the `activeWorkers` counter, not for the number of jobs whose status is `processing`. A drained run gives its slot back in `finally`, while its job stays `processing` until the write stream reports `finish`. A waiting job can take that slot in the meantime, so more than ten jobs can read `processing` at once. `SlotFreedBeforeCompletion` states the step that allows this.

## Model

| member | source | states |
|---|---|---|
| Jobs.Percentage | src/services/exportService.js:22-25 | the percentage never exceeds 100, and it is 0 when no rows were counted |
| Jobs.PercentageRoundsHalfUp | src/services/exportService.js:24 | below the cap, the model's integer result is the nearest whole number to the exact ratio times 100, with halves rounding up |
| Jobs.PercentageFull | src/services/exportService.js:24 | once processed rows reach the total, the percentage is exactly 100 |
| Jobs.PercentageMonotone | src/services/exportService.js:22-25 | for a fixed total, more processed rows never lower the percentage |
| Jobs.StatusNameInjective | src/services/exportService.js:14 | distinct statuses have distinct wire names, so a reported status identifies the state |
| Admission.ReplayWithinCapacity | src/services/exportService.js:86-95 | from a counter within capacity, any interleaving of enqueues and dequeues keeps it within capacity |
| Admission.ReplayAccounts | src/services/exportService.js:86-95 | the counter always equals its start, plus the admitted enqueues, minus the dequeues that released a slot |
| Admission.FullGateAdmitsNothing | src/services/exportService.js:87-89 | with every slot taken, further starts admit no one and leave the counter at ten |
| Admission.DequeueReopensGate | src/services/exportService.js:93-95 | at capacity, one finish frees a slot that the next start takes |
| Registry.JobQueue.constructor | src/services/exportService.js:29-34 | the registry starts empty with no active workers and a capacity of ten |
| Registry.JobQueue.CreateJob | src/services/exportService.js:9-20 | one new entry is filed under the fresh id, and no existing entry changes; the entry is pending with progress 0/0, no error, no completion time and no cancel flag |
| Registry.JobQueue.GetJob | src/services/exportService.js:43-45 | a record is returned exactly when the id is registered, and it is filed under its own id |
| Registry.JobQueue.RemoveJob | src/services/exportService.js:47-50 | exactly that id is forgotten |
| Registry.JobQueue.SetJobStatus | src/services/exportService.js:52-60 | only the named job changes; `completedAt` is stamped exactly for completed, failed or cancelled and kept otherwise; an unknown id changes nothing |
| Registry.JobQueue.SetJobProgress | src/services/exportService.js:62-68 | only the named job's two counters change; an unknown id changes nothing |
| Registry.JobQueue.SetJobError | src/services/exportService.js:70-77 | error, failed status and completion time are set together on the named job only; an unknown id changes nothing |
| Registry.JobQueue.CancelJob | src/services/exportService.js:79-84 | only the cancel flag changes, leaving status and progress alone; an unknown id changes nothing |
| Registry.JobQueue.EnqueueJob | src/services/exportService.js:86-91 | a slot is taken exactly when one is free, so the counter stays within capacity; the job map is untouched |
| Registry.JobQueue.DequeueJob | src/services/exportService.js:93-95 | a slot is given back, never going below zero |
| Query.WhereClauseOf | src/services/exportService.js:100-124 | there is one bound value per condition, and the clause is empty exactly when no filter is supplied |
| Query.BuildWhereClause | src/services/exportService.js:100-124 | the three guarded pushes with the moving placeholder counter produce exactly the specified clause and values |
| Query.Tested | src/services/exportService.js:105-118 | each guarded push keeps `values` aligned with the supplied keys seen so far and keeps the placeholder one past the last |
| Query.TestedSupplied | src/services/exportService.js:105-118 | a supplied key is pushed with its condition at the current placeholder and its value, and the placeholder moves on by one |
| Query.Finished | src/services/exportService.js:120-123 | once all three filters are tested, joining with `AND` behind `WHERE` yields the specified clause |
| Query.SuppliedKeysOrdered | src/services/exportService.js:105-118 | the supplied keys keep the whitelist order |
| Query.ConditionsInWhitelistOrder | src/services/exportService.js:105-118 | conditions appear in the order country code, subscription tier, lifetime value, one per supplied filter |
| Query.PlaceholdersBindSuppliedValues | src/services/exportService.js:106-117 | placeholder `$i` is bound to the value of the i-th supplied filter; numbering has no gaps |
| Query.ClauseIgnoresFilterValues | src/services/exportService.js:105-121 | the clause text depends only on which filters are supplied, not on their values |
| Query.OtherKeysIgnored | src/services/exportService.js:100-124 | keys outside the three whitelisted ones never affect clause or values |
| Extraction.ColumnsToExport | src/services/exportService.js:150-151 | no or empty `columns` selects all seven columns; otherwise every selected name is comma-free and the list is non-empty |
| Extraction.TrimmedPartsKeepOut | src/services/exportService.js:151 | trimming a comma-free part keeps it comma-free |
| Extraction.ColumnsRoundTrip | src/services/exportService.js:151 | a comma-joined list of already-trimmed comma-free names is read back as exactly that list |
| Extraction.ColumnsOfBare | src/services/exportService.js:151 | a text that splits into bare names selects exactly those names |
| Extraction.TrimEachBare | src/services/exportService.js:151 | trimming names that carry no surrounding blanks leaves them as they are |
| Text.TrimIsInfix | src/services/exportService.js:151 | `trim` drops a whitespace prefix and a whitespace suffix and keeps the infix, which neither starts nor ends with whitespace |
| Extraction.Delimiter | src/services/exportService.js:157 | a given non-empty delimiter is used, and a missing or empty one falls back to a comma |
| Extraction.QuoteChar | src/services/exportService.js:158 | a given non-empty quote character is used, and a missing or empty one falls back to a double quote |
| Extraction.PagesShape | src/services/exportService.js:165-198 | page `i` is fetched at offset `1000*i`; progress reports start at 0, never decrease and end at the rows written; no page is fetched at or after the cancellation boundary; a cancelled run stopped short of the total; a drained run reached the total or met an empty page |
| Extraction.ExtractShape | src/services/exportService.js:141-198 | the same paging, progress and cancellation facts for a whole extraction whose row count succeeded |
| Extraction.ExtractCountFails | src/services/exportService.js:140-213 | a failed row count fails the run with that message before any page is fetched |
| Extraction.ExtractNoRows | src/services/exportService.js:169 | with zero matching rows no page is fetched and the run drains |
| Extraction.ExtractBoundedProgress | src/services/exportService.js:169-197 | with pages of at most 1000 rows, progress ends below the total plus one chunk |
| Extraction.PagesOverTable | src/services/exportService.js:169-198 | against an unchanging table, the loop writes the table prefix up to the cancellation boundary and fetches exactly the pages needed |
| Extraction.ExtractOverTable | src/services/exportService.js:133-198 | against an unchanging table without prior cancellation, the export writes the whole table, or a page-aligned prefix when cancelled midway |
| Extraction.ScenarioTwoThousandFiveHundredRows | src/services/exportService.js:165-198 | 2,500 rows are fetched at offsets 0, 1000 and 2000, all written, at 100 percent |
| Extraction.ScenarioNoMatches | src/services/exportService.js:146-169 | zero matches gives no fetch, progress 0/0 and 0 percent |
| Extraction.SlotFreedBeforeCompletion | src/services/exportService.js:202-216 | the value-level half: a drained run's settled record reads `processing`, and one dequeue from a held slot lowers the counter by one and reopens the gate; `FinishExport` states the same of the registry after a run |
| Extraction.SettledStatus | src/services/exportService.js:141-213 | a drained run leaves the job processing; a cancelled one marks it cancelled and a failed one marks it failed with the error message; completion is stamped exactly on those two; identity fields never change |
| Extraction.StartExport | src/services/exportService.js:219-227 | a job is recorded under the fresh id with the given filters, columns and options, and no other entry changes; a slot is taken exactly when one is free, and then the job is already `processing` when the caller gets it back, otherwise it is still `pending` |
| Extraction.CancelExport | src/services/exportService.js:229-236 | the flag is raised, and the artifact unlinked, exactly for a known pending or processing job; otherwise the registry is unchanged |
| Extraction.BeginExport | src/services/exportService.js:133-141 | the part before the first `await`: an unknown id changes nothing; a known job switches to `processing` and nothing else changes |
| Extraction.FinishExport | src/services/exportService.js:143-216 | the rest of the run for a job already `processing`: the run is the specified extraction, the job ends in the settled state and the slot is released; after a drained run the job still reads `processing` while the gate is open again |
| Extraction.StartedIrrelevant | src/services/exportService.js:141 | the switch to `processing` before the run changes neither the run nor the record it leaves behind |
| Extraction.ExportToCsv | src/services/exportService.js:133-216 | unknown id: nothing changes and no slot is returned; known id: the loop's run is the specified extraction, the job ends in the settled state, the slot is released, and the artifact is unlinked exactly when the run did not drain |
| Extraction.Protected | src/services/exportService.js:143-213 | the body of the `try` after the switch to `processing`: row count (failing the job on error), initial progress, then the page loop, ending in the specified run and settled record |
| Extraction.PageLoop | src/services/exportService.js:165-200 | the `while` loop, with the cancel check before each fetch, matches the specified page sequence; the job's progress is updated after every page |
| Extraction.RunWhenAdmitted | src/services/exportService.js:86-91 | a later admission attempt of a waiting job: it is admitted exactly when a slot is free; once admitted, a known job's export returns the slot; an unknown id keeps it |
| Extraction.OnWriteFinish | src/services/exportService.js:202-204 | the write stream's finish completes the job and stamps its completion time |
| Extraction.OnWriteError | src/services/exportService.js:206-209 | the write stream's error fails the job with the message and unlinks the artifact |
| Extraction.StorageDir | src/services/exportService.js:243 | a set, non-empty storage variable is used as given; otherwise `./exports` |
| Extraction.ExportFilePath | src/services/exportService.js:242-244 | the path is the storage directory, a slash, the id and `.csv` |
| Extraction.ExportFilePathInjective | src/services/exportService.js:242-244 | distinct exports never share an artifact path |
| Text.ParseInt | src/routes/exports.js:102-103 | a number is read exactly when the text starts with a digit |
| Text.ParseIntOfNatToString | src/routes/exports.js:102-103 | reading back a decimal numeral, followed by a non-digit, yields the number |
| Text.NatToStringValue | src/routes/exports.js:106 | the decimal numeral of a number denotes that number |
| Text.NatToStringInjective | src/routes/exports.js:106 | distinct numbers print differently |
| Text.IntToString | src/routes/exports.js:106-107 | non-negative numbers print as their numeral, and negative ones as a minus sign before the numeral of their magnitude |
| Text.Split | src/routes/exports.js:101 | there is at least one part, and no part contains the separator |
| Text.JoinSplit | src/routes/exports.js:101 | joining the parts of a split with the separator restores the text |
| Text.SplitJoin | src/routes/exports.js:101 | splitting a join of separator-free parts restores the parts |
| Text.ContainsInfix | src/routes/exports.js:87 | a header value that has `gzip` inside it contains it |
| Text.RemoveFirstAbsent | src/routes/exports.js:101 | removing an absent pattern leaves the text unchanged |
| Routes.ReadSubmission | src/routes/exports.js:10-21 | a filter key is present exactly for the three filter parameters that are non-empty, with their values; `columns`, `delimiter` and `quoteChar` are passed only when non-empty |
| Routes.SubmittedFiltersSupply | src/routes/exports.js:12-15 | a submitted filter is supplied to the clause builder exactly when its query parameter is non-empty |
| Routes.SubmittedClauseDependsOnFilterParams | src/routes/exports.js:10-15 | query strings that agree on the three filter parameters give the same clause and values |
| Routes.PostExport | src/routes/exports.js:8-26 | a new job is recorded from the query string, with progress 0 of 0, no error and no completion time; the answer is 202 with its id and status `processing` when a slot was free, `pending` when all ten were taken, and the counter moves accordingly |
| Routes.StatusResponse | src/routes/exports.js:36-54 | an unknown id gets 404 `Export not found`; otherwise 200 with id, status name, both counters, the percentage (at most 100), the error, the creation time and the completion time (absent exactly when none is set) |
| Routes.GetStatus | src/routes/exports.js:34-54 | the status handler answers from the registry entry for the id |
| Routes.RangeParts | src/routes/exports.js:101 | the range splits into at least one part |
| Routes.RangeBounds | src/routes/exports.js:102-103 | the start is the first number; the end is the second number when there is a non-empty second part, and the last byte of the file otherwise |
| Routes.Download | src/routes/exports.js:62-123 | checks run in order: 404, 425, 404 `File not found`; a body streams exactly when the job is completed and the file exists, from its artifact path, as `text/csv` with the attachment name; gzip wins with status 200 and no length or range; with a range and no gzip it is 206 streaming the parsed interval, with `Content-Range` and `Content-Length` for it; with neither gzip nor range it is 200 with the file size as length |
| Routes.GzipIgnoresRange | src/routes/exports.js:87-100 | when gzip is accepted, adding, changing or removing a `Range` header changes nothing |
| Routes.RangeHeaderParts | src/routes/exports.js:101 | `bytes=S-E` splits into the numerals of S and E |
| Routes.OpenRangeHeaderParts | src/routes/exports.js:101 | `bytes=S-` splits into the numeral of S and an empty part |
| Routes.RangeDownloadResponse | src/routes/exports.js:100-103 | a completed export asked for `bytes=S-E` without gzip takes the range branch with the interval S..E, and the parts read as numbers |
| Routes.OpenRangeDownloadResponse | src/routes/exports.js:100-103 | a completed export asked for `bytes=S-` takes the range branch with the interval from S to the last byte |
| Routes.RangeHeadersOf | src/routes/exports.js:105-110 | the partial response is 206 with `Content-Range` for the interval, `Content-Length` end minus start plus one, and `Accept-Ranges: bytes` |
| Routes.RangeValueOf | src/routes/exports.js:106 | a natural start prints as its plain numeral in `Content-Range` |
| Routes.ParseNumeral | src/routes/exports.js:102-103 | `parseInt` of a decimal numeral gives back its number |
| Text.RemoveFirstPrefix | src/routes/exports.js:101 | removing `bytes=` from a header that starts with it leaves the rest |
| Text.SplitPair | src/routes/exports.js:101 | a dash between two dash-free pieces splits into exactly those two pieces |
| Routes.RangeDownload | src/routes/exports.js:100-113 | `bytes=S-E` gets 206 with `Content-Range: bytes S-E/size`, `Content-Length: E-S+1` and the interval S..E; the handler itself does not check that S is at most E or that E is within the file |
| Routes.OpenRangeDownload | src/routes/exports.js:100-113 | `bytes=S-` runs to byte `size-1`, so the length is `size-S` |
| Routes.NotServedBeforeFinish | src/services/exportService.js:141-216 | whatever way a run ends, its job is not completed, so every download is refused with 425 until the write stream finishes |
| Routes.ScenarioCompletedReport | src/routes/exports.js:43-54 | after 2,500 rows drain and the write finishes, the status reads `completed` at 100 percent with a completion time |
| Routes.DeleteExport | src/routes/exports.js:131-141 | an unknown id gets 404 and changes nothing; otherwise the answer is 204 whatever the status, and only a pending or processing job is flagged |

## Left out

- The `catch` blocks that answer 500 in the HTTP handlers are left out. The handlers' own logic raises nothing there, but the file-system calls they make can. These failures are not modelled:
  - `fs.statSync` (src/routes/exports.js:81) throws when the file vanishes after the existence check;
  - `fs.createReadStream(filePath, { start, end })` (src/routes/exports.js:112) throws when `start` exceeds `end` or `end` is negative, for example `bytes=0-` on an empty file, where `end` is -1; the handler then answers 500 `Failed to download export` (src/routes/exports.js:124-127), where the model's `Download` answers 206.
- The `catch` around the extraction is modelled through query errors.
- CSV serialisation (header line, quoting, escaping) and the bytes written are left out. The serializer library is not part of this model, so a run records the rows handed to it, not the file contents.
- Database access is abstract: a `COUNT` function and a page function. The SQL text of the page query is represented by its parts (columns, clause, limit 1000, offset).
- Gzip compression and file streaming are not modelled. A response names the stream it would pipe: the path, plus the byte interval when there is one.
- Query.ValueOf: `parseFloat(min_ltv)` is an opaque value that wraps the text, because floating point is not modelled.
- Jobs.Percentage: it computes `Math.round((p / t) * 100)` on exact rationals, as floor((200p + t) / 2t). Floating-point rounding is not modelled. In doubles an exact half can round down: for 23 of 40 rows, `(23 / 40) * 100` is 57.49999999999999, so the source reports 57 where the model gives 58; 57 of 200 gives 28 against the model's 29.
- The `setTimeout` polling in `enqueueJob` is concurrency. Admission is a step that fires only when a slot is free. The first attempt is part of `StartExport`, a later one is `RunWhenAdmitted`, which composes it with the export. The promise scheduling of `startExport` is modelled only as far as the POST answer depends on it: `StartExport` runs `BeginExport`, and `FinishExport` is the step that follows later.
- Interleaving is modelled only at page boundaries, through the `cancelArrives` oracle. Other interleavings are not captured: other jobs touching the counter mid-export, or a status read during a page.
- `Date` values are an abstract `Time`. The ISO formatting of `createdAt` and `completedAt` in the status response is not modelled.
- The `workers` map of `JobQueue` is never filled; only `removeJob` deletes from it. It is left out.
- `getExportStatus` is the same lookup as `getJob` and is not repeated.
- `getRowCount` is part of the abstract count function. Its `parseInt` of the driver's result is taken to give a natural number.
- Routes.Download: requires that the range parts `parseInt` reads start with a digit. Range parts that start otherwise are excluded: leading blanks and a sign, which `parseInt` skips or reads, and non-numeric text, which yields `NaN`. Numbers beyond double precision are not modelled either.
- Extraction.FinishExport: requires the job still to be registered when the run resumes after its first `await`. Only `removeJob` could remove it, and nothing in the service calls it.
- Extraction.BeginExport: the write stream that `exportToCsv` opens before its `try` (src/services/exportService.js:137-138) is not modelled, so the file is not created by the model.
- Extraction.ExportFilePath: it does not model `path.join`'s normalisation (for example `./exports` becoming `exports`, or a doubled slash collapsing). The path is plain concatenation with one slash.
- Routes.Download: response headers are a map from header name to value, so the order of `setHeader` calls and headers added by the framework (JSON content type, default status text) are not modelled.
- Routes.StatusResponse: the JSON encoding of the report is not modelled.
