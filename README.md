# Bulk CSV import engine, modelled in Dafny

This project models the bulk movie import of the personal API in
`src/bulk-import/`, first the pure parts and then the parts that keep state.

- A Letterboxd CSV export is uploaded. The controller checks the API key,
  the per-key rate limit, the file and the options.
- The service checks the headers and builds a queued job with one pending
  row per record.
- A background run then takes each pending row through
  `pending → processing → success | failed | skipped`. Along the way it
  normalises the title, draws a random watch date after the release year,
  and checks for duplicates in the file and against the remote titles. On a
  dry run nothing is created; otherwise the downstream create call is made.
- At the end the run recomputes the counters and sets the job to
  `completed`, `partial` or `failed`.
- A retry sends the failed rows back to pending.
- Jobs live in an in-memory store keyed by job id. The store answers job
  look-ups, filtered and paged row listings, and newest-first job listings.
- The API-key helpers of `src/common/auth.ts` are modelled as well.

Modules, one per file:

- `Wrappers`: Option, Result, Min and Max.
- `Seqs`: JavaScript `slice` and subsequences.
- `Text`: JavaScript `trim`, `toLowerCase`, `split`, `join` and `String(n)`.
- `Calendar`: UTC day numbers and civil dates, from 1970 on.
- `Auth`: the API-key helpers.
- `ImportTypes`: the records and enums of `types.ts`, plus status counts.
- `ImportRules`: the pure rules of the service. These are the header check,
  `Number`, the watch-date rule, row normalisation, one row's transition, the
  per-row pass, counter recomputation, finalisation and the retry reset.
- `ImportRepository`: the class `JobStore` over a `map`, and `toSummary`.
- `ImportService`: the class `BulkImportService`, which holds the store and
  the `processingJobs` guard.
- `ImportController`: the class `BulkImportController`, which holds the rate
  limiter's `requestLog` and the endpoints.
- `AsWritten`: the processing run as the code is written, for one input
  where it goes wrong (see "## Findings").

Jobs and rows are datatypes, so they have value semantics: what the store
keeps after `save` cannot be changed by a later change to the argument. This
is what the `JSON.parse(JSON.stringify(job))` copy achieves.

Whatever the runtime supplies is a parameter:

- the instant `now` (milliseconds), and the UTC day "today";
- the random watch-date offset `pick`;
- the fresh job and row ids;
- the CSV parse result;
- the remote title set;
- the answer of the downstream create call, one per row (`create`).

The watch-date rule follows the code: when January 1 of the start year is
after today, the watch date is that January 1, not today
(`bulk-import.service.ts:137`, `ImportRules.FutureStartGivesJanuaryFirst`).

## Model

| member | source | states |
|---|---|---|
| Auth.KeyFromValue | src/common/auth.ts:6-12 | the key is present exactly when the value is a string that is not blank, and it is then that string trimmed, non-empty and free of outer whitespace |
| Auth.ExtractApiKey | src/common/auth.ts:3-13 | the result is None or a non-empty trimmed string that is not blank; it is Some exactly when the query parameter, or if nullish the `apikey`/`apiKey` header, is a string that is not blank |
| Auth.QueryParamTakesPrecedence | src/common/auth.spec.ts:4-7 | a usable query parameter wins over any header, and its trimmed text is the key |
| Auth.EmptyParamShadowsHeader | src/common/auth.ts:5 | an empty query parameter is not nullish, so a valid header behind it is ignored and the result is None |
| Auth.HeaderFallback | src/common/auth.spec.ts:9-12 | without a parameter the `apikey` header is used, and the `apiKey` header when `apikey` is nullish |
| Auth.ArrayUsesFirstElement | src/common/auth.ts:6 | an array-valued key is read from its first element |
| Auth.ExtractTokenApiKey | src/common/auth.ts:15-28 | there is a key exactly when the `authorization` header is a string whose first space-separated piece is exactly `Token` and whose second piece exists and is not blank; the key is then that second piece trimmed, non-empty and free of outer whitespace |
| Auth.TokenSchemeYieldsToken | src/common/auth.spec.ts:20-23 | `Token <t>` with a non-blank `t` and no other space yields trimmed `t` |
| Auth.TokenRejections | src/common/auth.ts:18-25 | a header that is not a string, a scheme other than `Token`, a bare `Token` with no second piece, or a blank second piece all give None |
| Auth.BearerSchemeRejected | src/common/auth.spec.ts:25-28 | a `Bearer` header gives None |
| Auth.BlankHeaderKeyRejected | src/common/auth.spec.ts:14-18 | a whitespace-only header key gives None, so the caller answers `Apikey cannot be blank` |
| Text.TrimStart | src/common/auth.ts:8 | removes exactly the leading JavaScript whitespace: the result is a suffix of the input and does not start with whitespace |
| Text.TrimEnd | src/common/auth.ts:8 | removes exactly the trailing JavaScript whitespace: the result is a prefix of the input and does not end with whitespace |
| Text.Trim | src/common/auth.ts:12 | the result is no longer than the input and has no whitespace at either end; it is empty exactly when the input is blank; that it is the middle slice of the input is `Text.TrimKeepsMiddle` |
| Text.TrimKeepsMiddle | src/common/auth.ts:12 | the result is a slice of the input, and everything before and after that slice is whitespace |
| Text.TrimKeepsVisible | src/common/auth.ts:12 | a character that is not whitespace is still in the trimmed text, at its index less the leading whitespace |
| Text.TrimIdempotent | src/bulk-import/bulk-import.service.ts:150 | trimming twice is trimming once |
| Text.TrimmedNotBlank | src/bulk-import/bulk-import.service.ts:150-152 | a trimmed text that is not empty is not blank |
| Text.ToLower | src/bulk-import/bulk-import.service.ts:243 | keeps the length and lowers each character |
| Text.ToLowerIdempotent | src/bulk-import/bulk-import.service.ts:243 | lowering twice is lowering once, so dedupe keys are stable |
| Text.FindChar | src/common/auth.ts:22 | gives the index of the first occurrence of the character, or the length when it does not occur |
| Text.Split | src/common/auth.ts:22 | there is at least one piece, and no piece contains the separator |
| Text.SplitJoin | src/common/auth.ts:22 | joining the pieces with the separator gives back the text |
| Text.SplitAfterHead | src/common/auth.ts:22 | when the separator occurs, the first piece is the text before it and the rest split the text after it |
| Text.NatToString | src/bulk-import/bulk-import.controller.ts:43 | a non-empty text of decimal digits |
| Seqs.SliceIndex | src/bulk-import/bulk-import.repository.ts:156 | resolves a `slice` bound the JavaScript way: a negative bound counts from the end, and the result is clamped to `[0, len]` |
| Seqs.JsSlice | src/bulk-import/bulk-import.repository.ts:156 | the result is the run of elements between the two resolved bounds, and empty when they cross |
| Seqs.PageOfNaturals | src/bulk-import/bulk-import.repository.ts:153-157 | for a non-negative offset and limit the page has length `min(limit, max(0, len − offset))` and is that window of the sequence |
| Seqs.NegativeLimitDropsTail | src/bulk-import/bulk-import.repository.ts:156 | offset 0 with limit −n returns everything but the last n rows |
| Seqs.LastN | src/bulk-import/bulk-import.repository.ts:230 | the last `min(n, len)` elements, as a suffix |
| Seqs.LastNIsSlice | src/bulk-import/bulk-import.repository.ts:230 | `slice(-n)` is that suffix |
| ImportTypes.ParseRowStatus | src/bulk-import/types.ts:4 | a status query value names a row status exactly when it is one of the five names, and the names round-trip |
| ImportTypes.CountStatus | src/bulk-import/bulk-import.service.ts:323-325 | a status count never exceeds the number of rows |
| ImportTypes.CountTerminal | src/bulk-import/bulk-import.service.ts:322 | the count of rows neither pending nor processing never exceeds the number of rows |
| ImportTypes.TerminalIsSumOfOutcomes | src/bulk-import/bulk-import.service.ts:321-326 | processed rows are exactly the success, failed and skipped rows added up |
| ImportTypes.CountPositiveIffExists | src/bulk-import/bulk-import.service.ts:323-325 | a status count is positive exactly when some row has that status |
| ImportTypes.AllTerminalCount | src/bulk-import/bulk-import.service.ts:322 | when every row is terminal, the processed count is the row count |
| ImportTypes.FilterStatus | src/bulk-import/bulk-import.repository.ts:153 | the filter keeps exactly the rows with the status, in stored order, and its length is their count |
| ImportRules.MissingHeaders | src/bulk-import/bulk-import.service.ts:121 | the missing headers are exactly the required ones absent from the keys, in required order |
| ImportRules.CheckMovieHeaders | src/bulk-import/bulk-import.service.ts:116-124 | no records gives `CSV has no rows`; otherwise the check passes exactly when the first record has every required header; a failure names the missing headers joined by ", "; a pass returns the records unchanged |
| ImportRules.MissingYearIsReported | src/bulk-import/bulk-import.service.spec.ts:94-110 | a file without the `Year` column is refused with `Missing required headers: Year` |
| ImportRules.RenamedColumnsAreReported | src/bulk-import/bulk-import.service.ts:121-123 | a file whose first record has the columns `Date,Title,Year,Link` is refused naming `Name` and `Letterboxd URI`, the two required headers it lacks, in required order |
| ImportRules.DigitsRoundTrip | src/bulk-import/bulk-import.service.ts:156 | reading the decimal text of a number gives back that number |
| ImportRules.DigitsAreTrimmed | src/bulk-import/bulk-import.service.ts:156 | surrounding whitespace does not change the number read |
| ImportRules.JsNumberRoundTrip | src/bulk-import/bulk-import.service.ts:156-157 | `Number` of the decimal text of a natural number up to 2^53 − 1 is that number |
| ImportRules.JsNumberIntRoundTrip | src/bulk-import/bulk-import.controller.ts:7-8 | `Number` of the decimal text of an integer between −(2^53 − 1) and 2^53 − 1, minus sign included, is that integer |
| ImportRules.JsNumberPastDoubleRange | src/bulk-import/bulk-import.service.ts:156-157 | digit text whose value is 2^1024 − 2^970 or more is not a finite number |
| ImportRules.NonNumericIsNaN | src/bulk-import/bulk-import.service.ts:156-157 | text holding a character that is neither a digit, a sign nor whitespace is not a number |
| ImportRules.StartYear | src/bulk-import/bulk-import.service.ts:130-131 | the start year is at least 2010 and after a non-zero release year; it is either 2010 or exactly the release year plus one |
| ImportRules.WatchDay | src/bulk-import/bulk-import.service.ts:134-142 | the chosen day lies between January 1 of the start year and the later of that day and today; it is that January 1 when that day is today or later |
| ImportRules.WatchDayCoversRange | src/bulk-import/bulk-import.service.ts:140-141 | every day of that range is chosen for some random draw |
| ImportRules.WatchDate | src/bulk-import/bulk-import.service.ts:142-144 | the watch date is a valid calendar date of the chosen day, in the start year or later |
| ImportRules.FutureStartGivesJanuaryFirst | src/bulk-import/bulk-import.service.ts:137 | when January 1 of the start year is today or later, the watch date is exactly that January 1 |
| ImportRules.NormalizeMovieRow | src/bulk-import/bulk-import.service.ts:147-168 | a row is rejected exactly when its Name is missing or blank, with `INVALID_TITLE`/`Name is blank`; otherwise the title is the trimmed Name, the source URI is the trimmed URI, the year hint is `Number(Year)`, and the date is `WatchDate` of that year hint, today and the draw, so it falls in the start year or later |
| ImportRules.WatchYearAfterRelease | src/bulk-import/bulk-import.service.spec.ts:140-171 | a row with release year `y`, up to 2^53 − 1, gets a watch year of at least `max(2010, y+1)` |
| ImportRules.ProcessRow | src/bulk-import/bulk-import.service.ts:219-301 | a row that is not pending is left alone and the sets stay; a pending row gets exactly one more attempt, keeps its id, row number and record, and ends success, failed or skipped; the dedupe sets only grow |
| ImportRules.NormalizeKey | src/bulk-import/bulk-import.service.ts:243 | a row has a dedupe key exactly when its title is valid, and the key is the lower-cased trimmed title |
| ImportRules.InvalidTitleFails | src/bulk-import/bulk-import.service.spec.ts:71-92 | a pending row with a blank Name fails with `INVALID_TITLE`, and the sets stay the same |
| ImportRules.InFileDuplicateSkipped | src/bulk-import/bulk-import.service.ts:244-251 | with duplicate skipping, a key already seen in the file skips the row with `DUPLICATE_IN_FILE`, and that check comes before the remote one |
| ImportRules.RemoteDuplicateSkipped | src/bulk-import/bulk-import.service.ts:252-259 | with duplicate skipping, a key not seen in the file but known remotely skips the row with `DUPLICATE_REMOTE` |
| ImportRules.AcceptedRowOutcome | src/bulk-import/bulk-import.service.ts:260-298 | an accepted row: dry run gives success with target `dry-run`; a create error gives `UPSERT_FAILED` with its message; a thrown call gives `UPSERT_EXCEPTION`; a clean answer gives success with errors cleared and the key added remotely |
| ImportRules.KeyRecorded | src/bulk-import/bulk-import.service.ts:260 | with duplicate skipping, the row's key is afterwards in the in-file or the remote set, and in the in-file set whenever the row was not skipped, so even a failed title suppresses later repeats |
| ImportRules.PassPrefix | src/bulk-import/bulk-import.service.ts:219-302 | stepping a prefix of the rows keeps their number |
| ImportRules.AfterPrefix | src/bulk-import/bulk-import.service.ts:219-302 | the rows after `n` steps keep their number, and after all steps they are the finished pass |
| ImportRules.AfterPrefixStep | src/bulk-import/bulk-import.service.ts:219-302 | one more step changes exactly the next row, by `ProcessRow`, and nothing else |
| ImportRules.PassAt | src/bulk-import/bulk-import.service.ts:219-302 | row k of the pass is `ProcessRow` of row k under the sets left by the rows before it |
| ImportRules.SetsGrow | src/bulk-import/bulk-import.service.ts:260-292 | the dedupe sets after a longer prefix include those after a shorter one |
| ImportRules.PassTouchesOnlyPending | src/bulk-import/bulk-import.service.ts:220-229 | a row that was not pending is unchanged; a pending row gains exactly one attempt and ends success, failed or skipped |
| ImportRules.PassWithoutPendingIsIdentity | src/bulk-import/bulk-import.service.ts:220-225 | a pass over rows none of which is pending changes nothing |
| ImportRules.PassLeavesNoPending | src/bulk-import/bulk-import.service.ts:219-302 | after a pass no row is pending; a row that was already processing is left as it is (`PassTouchesOnlyPending`) |
| ImportRules.DuplicateTitleSkipped | src/bulk-import/bulk-import.service.spec.ts:47-69 | with duplicate skipping, a later pending row with the same key as an earlier pending row is skipped, as `DUPLICATE_IN_FILE` unless the earlier row was skipped itself |
| ImportRules.DryRunIgnoresCreate | src/bulk-import/bulk-import.service.ts:262-270 | on a dry run the pass is the same whatever the create call would answer |
| ImportRules.DryRunRowIgnoresOutcome | src/bulk-import/bulk-import.service.ts:262-270 | on a dry run one row's step is the same whatever the create call would answer |
| ImportRules.RecalculateCounters | src/bulk-import/bulk-import.service.ts:321-326 | each counter is the number of rows with its status; processed is success + failed + skipped and at most the row count; everything else is unchanged |
| ImportRules.TerminalStatus | src/bulk-import/bulk-import.service.ts:307-313 | `partial` exactly when some rows failed and some succeeded, `failed` exactly when some failed and none succeeded, `completed` otherwise |
| ImportRules.Finalise | src/bulk-import/bulk-import.service.ts:303-314 | the job gets recomputed counters, the terminal status law, and `completedAt` and `updatedAt` set to `now`; every other field is unchanged |
| ImportRules.StartRun | src/bulk-import/bulk-import.service.ts:210-212 | the job is `processing` with `updatedAt` set to `now`, keeps an earlier `startedAt` or gets `now`, and every other field is unchanged |
| ImportRules.RunJobFinishes | src/bulk-import/bulk-import.service.ts:198-319 | a run of a job with no row left processing ends with every row success, failed or skipped, `processedRows` equal to the row count, and status `completed`, `partial` or `failed` |
| ImportRules.SecondRunTouchesNoRow | src/bulk-import/bulk-import.service.ts:219-225 | running a finished job again changes no row |
| ImportRules.ResetFailedRows | src/bulk-import/bulk-import.service.ts:88-95 | exactly the failed rows become pending with code and message cleared and a new `updatedAt`; all others are unchanged |
| ImportRules.ResetCounts | src/bulk-import/bulk-import.service.ts:88-98 | after the reset no row is failed, the pending count grows by the former failed count, and success and skipped counts stay |
| ImportRules.ResetWithoutFailuresIsIdentity | src/bulk-import/bulk-import.service.ts:88-95 | resetting rows none of which failed changes nothing |
| ImportRules.NewMoviesJob | src/bulk-import/bulk-import.service.ts:27-50 | row i has row number i+2, is pending with no attempt and keeps its record; the job is a queued movies job with totalRows the record count and all other counters 0 |
| ImportRepository.RecentErrors | src/bulk-import/bulk-import.repository.ts:228-231 | the entries are the last `min(20, failed)` failed rows in row order, each carrying row number, code and message |
| ImportRepository.RecentErrorsAreFailures | src/bulk-import/bulk-import.repository.ts:228-231 | every entry comes from a failed row, and when there are at most 20 failures every failed row is reported |
| ImportRepository.ToSummary | src/bulk-import/bulk-import.repository.ts:227-250 | every field of the summary is the job's field of the same name (id, type, source, status, file name, the five counters, and the four timestamps), and the recent errors are `RecentErrors` of the rows; the service's `toSummary` (bulk-import.service.ts:328-351) is the same function |
| ImportRepository.Summaries | src/bulk-import/bulk-import.repository.ts:198 | the page of summaries is `toSummary` of each listed job, in order |
| ImportRepository.SelectRows | src/bulk-import/bulk-import.repository.ts:153 | without a status, or with an empty one, every row is selected; otherwise exactly the rows whose status has that name, in order |
| ImportRepository.PrependNewest | src/bulk-import/bulk-import.repository.ts:196 | a job no older than every listed job may go first |
| ImportRepository.InsertNewestFirst | src/bulk-import/bulk-import.repository.ts:196 | insertion keeps the listing newest first and adds exactly that job |
| ImportRepository.InsertMembers | src/bulk-import/bulk-import.repository.ts:196 | the insertion holds the listed jobs and the new one and nothing else |
| ImportRepository.InsertKeepsIdsDistinct | src/bulk-import/bulk-import.repository.ts:195 | inserting a job with a new id keeps the ids distinct |
| ImportRepository.JobStore.constructor | src/bulk-import/bulk-import.repository.ts:8 | the store starts empty |
| ImportRepository.JobStore.Save | src/bulk-import/bulk-import.repository.ts:16-21 | after saving, the job id maps to the job as it was passed and every other entry is unchanged; the store stays keyed by job id |
| ImportRepository.JobStore.Get | src/bulk-import/bulk-import.repository.ts:101-105 | a stored id gives its job, and an unknown id gives None |
| ImportRepository.JobStore.GetRows | src/bulk-import/bulk-import.repository.ts:145-158 | an unknown id gives None; otherwise the total counts the selected rows and the page is their `slice(offset, offset + limit)` |
| ImportRepository.JobStore.ListsKeysStep | src/bulk-import/bulk-import.repository.ts:195-196 | inserting one more stored job keeps the partial listing newest first and in step with the ids done so far |
| ImportRepository.JobStore.SortedJobs | src/bulk-import/bulk-import.repository.ts:195-196 | the listing holds every stored job exactly once, newest first |
| ImportRepository.JobStore.ListJobs | src/bulk-import/bulk-import.repository.ts:192-200 | the total is the number of stored jobs; the page is the summaries of `slice(offset, offset + limit)` of a newest-first listing of all of them |
| ImportService.UtcDay | src/bulk-import/bulk-import.service.ts:136 | today is the UTC day that contains `now` |
| ImportService.RetriedJob | src/bulk-import/bulk-import.service.ts:88-98 | exactly the failed rows are back to pending with code and message cleared; the job is queued with no completion time and no failed rows, and the processed counter covers success and skipped rows; every other field (id, type, source, file name, total, timestamps) is the old job's |
| ImportService.RetryThenRunRevisitsOnlyFailed | src/bulk-import/bulk-import.service.ts:78-106 | after a retry and a run, successful and skipped rows are as they were, and each formerly failed row has had exactly one more attempt and is no longer pending |
| ImportService.DryRunWithRepeatedTitle | src/bulk-import/bulk-import.service.spec.ts:47-69 | a dry run of a file with the same title twice completes with one success, one skipped row and no failures |
| ImportService.CountOfPair | src/bulk-import/bulk-import.service.spec.ts:47-69 | a status count over two rows counts each one that has the status |
| ImportService.BulkImportService.constructor | src/bulk-import/bulk-import.service.ts:15-20 | the service starts with no job being processed |
| ImportService.BulkImportService.CreateMoviesImport | src/bulk-import/bulk-import.service.ts:22-59 | a parse or header error is returned and nothing is stored or scheduled; otherwise the new queued job is stored under its id, a run is scheduled for it without `retryOnly`, and its summary is returned |
| ImportService.BulkImportService.GetJob | src/bulk-import/bulk-import.service.ts:61-68 | the summary of the stored job, or None exactly when the id is unknown |
| ImportService.BulkImportService.GetJobRows | src/bulk-import/bulk-import.service.ts:70-72 | passes the query through to the store |
| ImportService.BulkImportService.ListJobs | src/bulk-import/bulk-import.service.ts:74-76 | the page is a page of the store's newest-first listing |
| ImportService.BulkImportService.RetryFailedRows | src/bulk-import/bulk-import.service.ts:78-106 | an unknown id gives None and changes nothing; a job that is not a movies job is summarised unchanged; a movies job is stored as `RetriedJob`, a `retryOnly` run is scheduled and its summary is returned |
| ImportService.BulkImportService.StepPendingRows | src/bulk-import/bulk-import.service.ts:219-302 | the loop steps every row in order and saves after each one; the stored job ends as the started job with its rows replaced by the pass |
| ImportService.BulkImportService.ProcessJob | src/bulk-import/bulk-import.service.ts:198-319 | a trigger for a job already running, or for an unknown id, changes nothing; otherwise the stored job becomes the finalised run; the `processingJobs` guard is released on every exit |
| ImportController.ConfiguredNumberReadsInteger | src/bulk-import/bulk-import.controller.ts:7-8 | a setting written as a decimal integer a double holds exactly is read as that integer |
| ImportController.QueryNumberReadsInteger | src/bulk-import/bulk-import.controller.ts:121-122 | a query value written as a decimal integer a double holds exactly is that integer, whatever the default |
| ImportController.QueryNumberNonNumericIsDefault | src/bulk-import/bulk-import.controller.ts:121-122 | a query value holding a character that is neither a digit, a sign nor whitespace gives the default |
| ImportController.MapImportOptions | src/bulk-import/bulk-import.controller.ts:83-85 | a dry run exactly for `true`, no duplicate skipping exactly for `false`, and the source is `letterboxd` |
| ImportController.Recent | src/bulk-import/bulk-import.controller.ts:22 | exactly the timestamps at or after the window start, in stored order |
| ImportController.RecentIdempotent | src/bulk-import/bulk-import.controller.ts:21-22 | filtering the window again changes nothing |
| ImportController.ExtensionIgnoresCase | src/bulk-import/bulk-import.controller.ts:38 | a name passes the extension check exactly when its lower-cased form does |
| ImportController.CsvNamesAccepted | src/bulk-import/bulk-import.controller.ts:38 | any name ending in `.csv` or `.CSV` passes the extension check |
| ImportController.BulkImportController.constructor | src/bulk-import/bulk-import.controller.ts:7-16 | the request log starts empty, and the size and rate limits are read from the environment, with the defaults when unset |
| ImportController.BulkImportController.CheckRateLimit | src/bulk-import/bulk-import.controller.ts:18-31 | refuses exactly when the requests of the last minute reach the limit; a refusal stores only those requests, and an acceptance stores them plus `now`; afterwards the key's list holds only timestamps in the window, and after an acceptance at most the limit; other keys are untouched |
| ImportController.BulkImportController.ValidateCsvFile | src/bulk-import/bulk-import.controller.ts:33-51 | the first failing check in order wins: missing buffer (`CSV file is required`), not `.csv` (`Only .csv files are supported`), a numeric size over the limit (`File too large. Max allowed is <limit> bytes`), a non-empty MIME type outside the allowed set (`Unsupported file type: <type>`); the file passes exactly when every check does |
| ImportController.BulkImportController.Refusal | src/bulk-import/bulk-import.controller.ts:63-70 | no usable key gives `Apikey cannot be blank`; with a key the request is refused exactly when it is over the limit, with the rate-limit message |
| ImportController.BulkImportController.Admit | src/bulk-import/bulk-import.controller.ts:63-70 | the key is extracted first and the answer is `Refusal`; without a key the rate log is untouched, so no budget is spent; with one the log is what the rate limiter leaves, `LogAfterGuards` |
| ImportController.BulkImportController.CreateMoviesImport | src/bulk-import/bulk-import.controller.ts:53-90 | key and rate checks come first, then the file check, then the source, then the service's parse and header errors, each as the error reply; the answer is a summary exactly when all of them pass, and then the new job is stored and a run scheduled with the mapped options; any error reply leaves the store unchanged and schedules nothing; the rate log is `LogAfterGuards` |
| ImportController.BulkImportController.GetJob | src/bulk-import/bulk-import.controller.ts:92-108 | after the key and rate checks, the summary of the job or `Job not found`; the rate log is `LogAfterGuards` |
| ImportController.BulkImportController.ListJobs | src/bulk-import/bulk-import.controller.ts:110-124 | after the key and rate checks, a page of the newest-first listing, with limit 25 and offset 0 for values that are not numbers; the rate log is `LogAfterGuards` |
| ImportController.BulkImportController.GetJobRows | src/bulk-import/bulk-import.controller.ts:126-152 | after the key and rate checks, the store's rows answer, with limit 50 and offset 0 for values that are not numbers, or `Job not found`; the rate log is `LogAfterGuards` |
| ImportController.BulkImportController.RetryFailedRows | src/bulk-import/bulk-import.controller.ts:154-180 | a refused request changes nothing and schedules nothing; an unknown id gives `Job not found` and schedules nothing; a job that is not a movies job is answered with its summary, unchanged and with nothing scheduled; a movies job is stored as `RetriedJob`, answered with its summary and a `retryOnly` run with the mapped options is scheduled; the rate log is `LogAfterGuards` |
| Calendar.MonthOf | src/bulk-import/bulk-import.service.ts:144 | the month of a day of the year is between 1 and 12, and the day lies inside it |
| Calendar.DateInYear | src/bulk-import/bulk-import.service.ts:144 | a day of the year gives a valid date of that year |
| Calendar.CivilFromValid | src/bulk-import/bulk-import.service.ts:144 | counting days forward from a January 1 gives a valid date whose day number is that count further on |
| Calendar.ToCivil | src/bulk-import/bulk-import.service.ts:144 | the UTC date of a day number is a valid date with that day number |
| Calendar.CivilFromNextYear | src/bulk-import/bulk-import.service.ts:144 | counting past a whole year moves to the next year |
| Calendar.CivilFromShift | src/bulk-import/bulk-import.service.ts:144 | the date k days after January 1 of y is found by counting from that January 1 |
| Calendar.YearLowerBound | src/bulk-import/bulk-import.service.ts:142-144 | a day on or after January 1 of y falls in year y or later |
| Calendar.MonthOfUnique | src/bulk-import/bulk-import.service.ts:144 | a valid date's day of the year gives back its month |
| Calendar.DateRoundTrip | src/bulk-import/bulk-import.service.ts:144 | a valid date from 1970 on converts to its day number and back |
| Calendar.JanFirstIsJanuaryFirst | src/bulk-import/bulk-import.service.ts:134 | day `JanFirst(y)` is the date `y-01-01` |
| AsWritten.JanFirstBounds | src/bulk-import/bulk-import.service.ts:134 | January 1 of y lies between 365 and 366 days per year after the epoch |
| AsWritten.ModestYearNeverThrows | src/bulk-import/bulk-import.service.ts:134-144 | a release year below 200 000 never puts the start date out of range |
| AsWritten.FirstThrow | src/bulk-import/bulk-import.service.ts:219-231 | the row found, if any, is one whose normalisation throws |
| AsWritten.FirstThrowIsFirst | src/bulk-import/bulk-import.service.ts:219-231 | no row before the one found throws, and none is found exactly when no row throws |
| AsWritten.StalledAt | src/bulk-import/bulk-import.service.ts:227-231 | when the loop stops at a row, the rows before it are the intended pass's first steps; that row is left processing with one more attempt and every later row is as it was |
| AsWritten.PassAsWritten | src/bulk-import/bulk-import.service.ts:218-302 | with no throwing row it is the intended pass; otherwise the rows before the first throwing row are stepped as in the intended pass, that row is left processing with one more attempt and the later rows are untouched |
| AsWritten.AsWrittenAgreesWithoutThrow | src/bulk-import/bulk-import.service.ts:198-319 | without a throwing row the run as written equals the intended run |
| AsWritten.FarFutureYearPastRange | src/bulk-import/bulk-import.service.ts:131-134 | release year 300000 puts January 1 of the start year past the last day a `Date` can hold |
| AsWritten.YearText | src/bulk-import/bulk-import.service.ts:156 | the decimal text of 300000 |
| AsWritten.FarFutureRowThrows | src/bulk-import/bulk-import.service.ts:150-158 | a pending row titled `Heat` with Year `300000` throws |
| AsWritten.LoneThrowingRowStalls | src/bulk-import/bulk-import.service.ts:303-314 | a job whose only row throws ends, as written, with that row processing, nothing processed and status `completed` |
| AsWritten.FarFutureYearStallsRow | src/bulk-import/bulk-import.service.ts:144 | for that row the run as written leaves it processing in a `completed` job with processedRows 0, while the intended run leaves it terminal with processedRows 1 |

## Left out

- PostgreSQL branches of the repository (`bulk-import.repository.ts:23-98`, `107-142`, `160-189`, `202-224`) and the database service: SQL I/O. Only the in-memory map is modelled.
- `csv-parse` (`bulk-import.service.ts:109-114`): a foreign library. Its outcome is the parameter `parsed` of `ImportService.BulkImportService.CreateMoviesImport`, records or the error message it throws; only the header check after it is modelled.
- `loadExistingMovieDedupeSet` (`bulk-import.service.ts:170-196`): a network fetch guarded by an environment flag, whose failures are logged and ignored. The remote title set it yields is the parameter `remote`.
- `MoviesService.create`: a network call. Its answer for row k is `create(k)`: no error with an optional id, an error message, or a thrown exception.
- `setImmediate` scheduling (`bulk-import.service.ts:54-56`, `101-103`): a scheduled run is returned as a `ProcessTrigger` value and performed by a separate call of `ProcessJob`. Interleaving of runs and requests is not modelled. That includes the window between the `processingJobs` check, the awaited `get` and the `add` (`bulk-import.service.ts:199-209`).
- Aliasing in the store: `get` hands back the stored object itself (`bulk-import.repository.ts:104`), and `processJob` and `retryFailedRows` change it in place between saves. In this single-threaded model such changes are saved right after, so the model shows the store at each save. A reader running between two saves, which would see a half-changed job, is not modelled.
- Clock and randomness: one `now` per operation, also used for every `new Date()` inside it. ISO timestamps are integers of milliseconds, so `createdAt` ordering is integer ordering; for the four-digit years that ISO strings carry, both orders agree. `randomInt` is the parameter `pick`, reduced into the range; `ImportRules.WatchDayCoversRange` shows that every day of the range is reachable, but the distribution is not modelled. `randomUUID` ids are parameters.
- ImportRules.JsNumber: `Number` is modelled on optionally signed decimal integers, with blank text giving 0. Fractions, exponents, hexadecimal and `Infinity` are treated as NaN. So `ImportRules.StartYear` is never reached with a fractional year, which `Math.floor` would handle.
- ImportRules.JsNumber: a magnitude of 2^1024 − 2^970 or more reads as Infinity, which `Number.isFinite` rejects, so it gives None. Between 2^53 and that bound `Number` rounds to the nearest double; the model keeps the exact integer instead.
- ImportRules.JsNumberRoundTrip: stated only up to 2^53 − 1, the largest integer a double holds exactly; past it the rounding above breaks the round trip. `ImportRules.JsNumberIntRoundTrip`, `ImportRules.WatchYearAfterRelease`, `ImportController.ConfiguredNumberReadsInteger` and `ImportController.QueryNumberReadsInteger` carry the same bound.
- ImportController.QueryNumber: because of the same limitation, a fractional or exponent `limit`/`offset` gives the default here, where the code would pass the number on.
- ImportController.ConfiguredNumber: environment settings have the same limitation.
- Text.ToLower: lower-cases ASCII and Latin-1 letters only. Full Unicode case mapping is not modelled.
- ImportRepository.JobStore.ListJobs: the comparator of `bulk-import.repository.ts:196` returns 1 for equal `createdAt` values, so the order among jobs created at the same instant depends on the engine. The contract allows any newest-first listing, which is weaker than one fixed order.
- `getApiKeyError`: the controller imports and calls it (`bulk-import.controller.ts:3`, `65`), but `src/common/auth.ts` does not define it. As written, the call would throw a `TypeError` and the request would end with a server error instead of the error body. `ImportController.BulkImportController.Refusal` models the evident intent: a `getApiKeyError` that returns null or undefined, so the reply is the `??` fallback `API_KEY_MISSING_MESSAGE`.
- Logger calls: they are output only.
- Exceptions from the store's `save` and from the HTTP layer: the in-memory save cannot fail. Decorators, the file interceptor and multipart parsing are outside the model. The uploaded file is given by the fields the validator reads.
- Only movies imports are created. Shows jobs appear only as the `importType` that `RetryFailedRows` refuses to reset.

## Findings

| source | as written | input that shows it | evidently intended | confidence | as-written member | corrected member |
|---|---|---|---|---|---|---|
| src/bulk-import/bulk-import.service.ts:129-145 | For a release year of 275760 or more, `Date.UTC` of January 1 of the start year is NaN. The chosen date is then invalid and `toISOString` throws outside any per-row handler. The loop stops with that row still `processing` and every later row untouched. The `finally` block still finalises the job, which can be `completed` with `processedRows < totalRows`. Nothing handles the rejected promise of `processJob` (it is discarded with `void` at lines 55 and 102), so it is an unhandled rejection, which on Node.js 15 and later ends the process by default. | a pending row with Name `Heat` and Year `300000` | every pending row ends success, failed or skipped and is counted in the finished job | not executed | AsWritten.FarFutureYearStallsRow | ImportRules.RunJobFinishes |
