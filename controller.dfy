/** `src/bulk-import/bulk-import.controller.ts`: the HTTP endpoints of the
    import engine with their guards, the per-key sliding-window rate limiter,
    the upload validator and the mapping of form fields to options. */
module ImportController {
  import opened Wrappers
  import opened Seqs
  import opened Text
  import opened Auth
  import opened ImportTypes
  import opened ImportRules
  import opened ImportRepository
  import opened ImportService

  const DEFAULT_MAX_UPLOAD_SIZE_BYTES: int := 10 * 1024 * 1024
  const DEFAULT_RATE_LIMIT_PER_MINUTE: int := 120
  const RATE_WINDOW_MS: int := 60 * 1000
  const ALLOWED_MIME_TYPES: set<string> := {"text/csv", "application/vnd.ms-excel", "application/csv"}
  const ALLOWED_EXTENSIONS: seq<string> := [".csv"]
  const DEFAULT_SOURCE: string := "letterboxd"
  const DEFAULT_JOBS_LIMIT: int := 25
  const DEFAULT_ROWS_LIMIT: int := 50

  const RATE_LIMIT_MESSAGE: string := "Rate limit exceeded. Try again later"
  const FILE_REQUIRED_MESSAGE: string := "CSV file is required"
  const EXTENSION_MESSAGE: string := "Only .csv files are supported"
  const JOB_NOT_FOUND_MESSAGE: string := "Job not found"

  /** A numeric setting read from the environment: the default when the
      variable is unset, otherwise `Number` of its text, None standing for NaN. */
  function ConfiguredNumber(env: Option<string>, default: int): (r: Option<int>)
    ensures env.None? ==> r == Some(default)
    ensures env.Some? ==> r == JsNumber(env)
  {
    if env.None? then Some(default) else JsNumber(env)
  }

  /** A numeric query value: `Number` of its text when that is a finite
      number, the default otherwise (also for a missing value). */
  function QueryNumber(param: Option<string>, default: int): (n: int)
    ensures JsNumber(param).None? ==> n == default
    ensures JsNumber(param).Some? ==> n == JsNumber(param).value
  {
    JsNumber(param).GetOr(default)
  }

  /** `String(n)` of a setting; NaN prints as `NaN`. */
  function NumberText(n: Option<int>): string {
    if n.None? then "NaN" else IntToString(n.value)
  }

  /** The uploaded file as the controller sees it: whether it has a buffer,
      and the name, size and MIME type when they have the expected type. */
  datatype UploadedFile = UploadedFile(hasBuffer: bool, originalName: Option<string>, size: Option<int>, mimetype: Option<string>)

  /** An endpoint's answer: an error body or a result. */
  datatype Reply<T> = ErrorReply(error: string) | Answer(body: T)

  /** The options of an import as the form fields give them: a dry run only for
      the text `true`, duplicate skipping unless the text is `false`. */
  function MapImportOptions(dryRun: Option<string>, skipDuplicates: Option<string>): (o: CreateMovieImportOptions)
    ensures o.dryRun <==> dryRun == Some("true")
    ensures !o.skipDuplicates <==> skipDuplicates == Some("false")
    ensures o.source == Letterboxd
  {
    CreateMovieImportOptions(dryRun == Some("true"), skipDuplicates != Some("false"), Letterboxd)
  }

  /** The timestamps at or after the window start, in their stored order. */
  function Recent(timestamps: seq<int>, windowStart: int): (r: seq<int>)
    ensures IsSubsequence(r, timestamps)
    ensures forall k :: 0 <= k < |r| ==> r[k] >= windowStart
    ensures forall k :: 0 <= k < |timestamps| && timestamps[k] >= windowStart ==> timestamps[k] in r
  {
    if timestamps == [] then []
    else
      var rest := Recent(timestamps[1..], windowStart);
      assert forall k :: 1 <= k < |timestamps| ==> timestamps[k] == timestamps[1..][k - 1];
      if timestamps[0] >= windowStart then [timestamps[0]] + rest else rest
  }

  /** Filtering twice with the same window changes nothing more. */
  lemma {:induction false} RecentIdempotent(timestamps: seq<int>, windowStart: int)
    ensures Recent(Recent(timestamps, windowStart), windowStart) == Recent(timestamps, windowStart)
  {
    if timestamps != [] {
      RecentIdempotent(timestamps[1..], windowStart);
    }
  }

  /** The name ends in one of the allowed extensions, in any letter case. */
  predicate HasAllowedExtension(name: string)
    ensures HasAllowedExtension(name) <==> EndsWith(ToLower(name), ".csv")
  {
    var lowered := ToLower(name);
    assert forall ext :: ext in ALLOWED_EXTENSIONS <==> ext == ".csv";
    exists ext :: ext in ALLOWED_EXTENSIONS && EndsWith(lowered, ext)
  }

  /** A setting written as a decimal integer a double holds exactly is that
      integer. */
  lemma ConfiguredNumberReadsInteger(n: int, default: int)
    requires -MAX_SAFE_INTEGER <= n <= MAX_SAFE_INTEGER
    ensures ConfiguredNumber(Some(IntToString(n)), default) == Some(n)
  {
    JsNumberIntRoundTrip(n);
  }

  /** A query value written as a decimal integer a double holds exactly is
      that integer, whatever the default. */
  lemma QueryNumberReadsInteger(n: int, default: int)
    requires -MAX_SAFE_INTEGER <= n <= MAX_SAFE_INTEGER
    ensures QueryNumber(Some(IntToString(n)), default) == n
  {
    JsNumberIntRoundTrip(n);
  }

  /** Text holding a character that is neither a digit, a sign nor
      whitespace is not a number, so the default is used. */
  lemma QueryNumberNonNumericIsDefault(text: string, default: int, at: nat)
    requires at < |text| && !IsDigit(text[at]) && text[at] != '-' && text[at] != '+' && !IsJsWhitespace(text[at])
    ensures QueryNumber(Some(text), default) == default
  {
    NonNumericIsNaN(text, at);
  }

  /** Only the lower-cased name is looked at, so the letter case of the name
      never matters. */
  lemma ExtensionIgnoresCase(name: string)
    ensures HasAllowedExtension(name) <==> HasAllowedExtension(ToLower(name))
  {
    ToLowerIdempotent(name);
  }

  /** A name ending in `.csv` or `.CSV` passes, whatever comes before it. */
  lemma CsvNamesAccepted(stem: string)
    ensures HasAllowedExtension(stem + ".csv") && HasAllowedExtension(stem + ".CSV")
  {
    ToLowerConcat(stem, ".csv");
    ToLowerConcat(stem, ".CSV");
    assert ToLower(".csv") == ".csv";
    assert ToLower(".CSV") == ".csv";
    var lowered := ToLower(stem);
    assert (lowered + ".csv")[|lowered|..] == ".csv";
  }

  class BulkImportController {
    const service: BulkImportService
    /** `BULK_UPLOAD_MAX_BYTES` as a number (None for NaN). */
    const maxUploadSizeBytes: Option<int>
    /** `BULK_IMPORT_RATE_LIMIT_PER_MINUTE` as a number (None for NaN). */
    const rateLimitPerMinute: Option<int>
    /** API key to the instants of its recent requests. */
    var requestLog: map<string, seq<int>>

    constructor(service: BulkImportService, maxBytesEnv: Option<string>, rateLimitEnv: Option<string>)
      ensures this.service == service && requestLog == map[]
      ensures maxUploadSizeBytes == ConfiguredNumber(maxBytesEnv, DEFAULT_MAX_UPLOAD_SIZE_BYTES)
      ensures rateLimitPerMinute == ConfiguredNumber(rateLimitEnv, DEFAULT_RATE_LIMIT_PER_MINUTE)
    {
      this.service := service;
      maxUploadSizeBytes := ConfiguredNumber(maxBytesEnv, DEFAULT_MAX_UPLOAD_SIZE_BYTES);
      rateLimitPerMinute := ConfiguredNumber(rateLimitEnv, DEFAULT_RATE_LIMIT_PER_MINUTE);
      requestLog := map[];
    }

    /** The key's requests inside the window that ends at `now`. */
    function RecentFor(apiKey: string, now: int): seq<int>
      reads this
    {
      Recent(if apiKey in requestLog then requestLog[apiKey] else [], now - RATE_WINDOW_MS)
    }

    /** The key has used up its budget; a NaN limit never refuses. */
    predicate OverLimit(apiKey: string, now: int)
      reads this
    {
      rateLimitPerMinute.Some? && |RecentFor(apiKey, now)| >= rateLimitPerMinute.value
    }

    /** The request log once the guards have seen a request with the given
        key: unchanged without a usable key; otherwise the key keeps only its recent
        requests, with `now` added when the request is let through. */
    function LogAfterGuards(key: Option<string>, now: int): map<string, seq<int>>
      reads this
    {
      if key.None? then requestLog
      else if OverLimit(key.value, now) then requestLog[key.value := RecentFor(key.value, now)]
      else requestLog[key.value := RecentFor(key.value, now) + [now]]
    }

    /** `checkRateLimit`: the key's log keeps only its recent requests; a key
        within budget has `now` appended and is let through, any other is
        refused without recording `now`. */
    method CheckRateLimit(apiKey: string, now: int) returns (err: Option<string>)
      modifies this
      ensures err.Some? <==> old(OverLimit(apiKey, now))
      ensures err.Some? ==> err.value == RATE_LIMIT_MESSAGE && requestLog == old(requestLog)[apiKey := old(RecentFor(apiKey, now))]
      ensures err.None? ==> requestLog == old(requestLog)[apiKey := old(RecentFor(apiKey, now)) + [now]]
      ensures forall k :: 0 <= k < |requestLog[apiKey]| ==> requestLog[apiKey][k] >= now - RATE_WINDOW_MS
      ensures err.None? && rateLimitPerMinute.Some? ==> |requestLog[apiKey]| <= rateLimitPerMinute.value
      ensures forall key :: key != apiKey ==> (key in requestLog <==> key in old(requestLog))
      ensures forall key :: key != apiKey && key in requestLog ==> requestLog[key] == old(requestLog)[key]
    {
      var recent := RecentFor(apiKey, now);
      if rateLimitPerMinute.Some? && |recent| >= rateLimitPerMinute.value {
        requestLog := requestLog[apiKey := recent];
        return Some(RATE_LIMIT_MESSAGE);
      }
      requestLog := requestLog[apiKey := recent + [now]];
      return None;
    }

    /** `validateCsvFile`: the first failed check, in order: a buffer, a
        `.csv` name in any letter case, a size within the maximum, an allowed
        MIME type when one is given; nothing when all pass. */
    function ValidateCsvFile(file: Option<UploadedFile>): (r: Option<string>)
      ensures file.None? || !file.value.hasBuffer ==> r == Some(FILE_REQUIRED_MESSAGE)
      ensures file.Some? && file.value.hasBuffer &&
              (file.value.originalName.None? || !EndsWith(ToLower(file.value.originalName.value), ".csv")) ==>
                r == Some(EXTENSION_MESSAGE)
      ensures r.None? <==>
                && file.Some? && file.value.hasBuffer
                && file.value.originalName.Some? && EndsWith(ToLower(file.value.originalName.value), ".csv")
                && !(file.value.size.Some? && maxUploadSizeBytes.Some? && file.value.size.value > maxUploadSizeBytes.value)
                && !(file.value.mimetype.Some? && file.value.mimetype.value != "" && file.value.mimetype.value !in ALLOWED_MIME_TYPES)
      ensures file.Some? && file.value.hasBuffer &&
              file.value.originalName.Some? && EndsWith(ToLower(file.value.originalName.value), ".csv") &&
              file.value.size.Some? && maxUploadSizeBytes.Some? && file.value.size.value > maxUploadSizeBytes.value ==>
                r == Some("File too large. Max allowed is " + NumberText(maxUploadSizeBytes) + " bytes")
      ensures file.Some? && file.value.hasBuffer &&
              file.value.originalName.Some? && EndsWith(ToLower(file.value.originalName.value), ".csv") &&
              !(file.value.size.Some? && maxUploadSizeBytes.Some? && file.value.size.value > maxUploadSizeBytes.value) &&
              file.value.mimetype.Some? && file.value.mimetype.value != "" && file.value.mimetype.value !in ALLOWED_MIME_TYPES ==>
                r == Some("Unsupported file type: " + file.value.mimetype.value)
    {
      if file.None? || !file.value.hasBuffer then Some(FILE_REQUIRED_MESSAGE)
      else
        var f := file.value;
        if f.originalName.None? || !HasAllowedExtension(f.originalName.value)
        then Some(EXTENSION_MESSAGE)
        else if f.size.Some? && maxUploadSizeBytes.Some? && f.size.value > maxUploadSizeBytes.value
        then Some("File too large. Max allowed is " + NumberText(maxUploadSizeBytes) + " bytes")
        else if f.mimetype.Some? && f.mimetype.value != "" && f.mimetype.value !in ALLOWED_MIME_TYPES
        then Some("Unsupported file type: " + f.mimetype.value)
        else None
    }

    /** The guards' answer to a request: the missing-key message without a
        usable key, the rate-limit message for a key over budget, nothing
        when the request may proceed. */
    function Refusal(req: Request, apiKeyParam: JsValue, now: int): (r: Option<string>)
      reads this
      ensures ExtractApiKey(req, apiKeyParam).None? ==> r == Some(API_KEY_MISSING_MESSAGE)
      ensures ExtractApiKey(req, apiKeyParam).Some? ==>
                (r.Some? <==> OverLimit(ExtractApiKey(req, apiKeyParam).value, now)) && (r.Some? ==> r.value == RATE_LIMIT_MESSAGE)
    {
      var key := ExtractApiKey(req, apiKeyParam);
      if key.None? then Some(API_KEY_MISSING_MESSAGE)
      else if OverLimit(key.value, now) then Some(RATE_LIMIT_MESSAGE)
      else None
    }

    /** The key check and the rate limiter that open every endpoint. Without
        a usable key the request is refused before the limiter runs, so it
        spends no budget. */
    method Admit(req: Request, apiKeyParam: JsValue, now: int) returns (apiKey: Option<string>, err: Option<string>)
      modifies this
      ensures apiKey == ExtractApiKey(req, apiKeyParam)
      ensures err == old(Refusal(req, apiKeyParam, now))
      ensures requestLog == old(LogAfterGuards(ExtractApiKey(req, apiKeyParam), now))
      ensures apiKey.None? ==> requestLog == old(requestLog)
      ensures apiKey.Some? && err.Some? ==>
                requestLog == old(requestLog)[apiKey.value := old(RecentFor(apiKey.value, now))]
      ensures apiKey.Some? && err.None? ==>
                requestLog == old(requestLog)[apiKey.value := old(RecentFor(apiKey.value, now)) + [now]]
    {
      apiKey := ExtractApiKey(req, apiKeyParam);
      if apiKey.None? {
        return apiKey, Some(API_KEY_MISSING_MESSAGE);
      }
      err := CheckRateLimit(apiKey.value, now);
    }

    /** `POST movies`: the guards, the upload checks, the source check, then
        the import with the mapped options; the service's error becomes the
        reply. A refused request stores nothing and schedules nothing. */
    method CreateMoviesImport(req: Request, file: Option<UploadedFile>, apiKeyParam: JsValue, source: Option<string>,
                              dryRun: Option<string>, skipDuplicates: Option<string>,
                              parsed: Result<seq<RawRow>, string>, jobId: string, rowId: nat -> string, now: int)
      returns (reply: Reply<ImportJobSummary>, trigger: Option<ProcessTrigger>)
      requires service.repo.Valid()
      modifies this, service.repo
      ensures service.repo.Valid()
      ensures requestLog == old(LogAfterGuards(ExtractApiKey(req, apiKeyParam), now))
      ensures old(Refusal(req, apiKeyParam, now)).Some? ==> reply == ErrorReply(old(Refusal(req, apiKeyParam, now)).value)
      ensures old(Refusal(req, apiKeyParam, now)).None? && ValidateCsvFile(file).Some? ==> reply == ErrorReply(ValidateCsvFile(file).value)
      ensures old(Refusal(req, apiKeyParam, now)).None? && ValidateCsvFile(file).None? && source.GetOr(DEFAULT_SOURCE) != DEFAULT_SOURCE ==>
                reply == ErrorReply("Unsupported source \"" + source.value + "\"")
      ensures old(Refusal(req, apiKeyParam, now)).None? && ValidateCsvFile(file).None? && source.GetOr(DEFAULT_SOURCE) == DEFAULT_SOURCE ==>
                && (parsed.Err? ==> reply == ErrorReply(parsed.error))
                && (parsed.Ok? && CheckMovieHeaders(parsed.value).Err? ==> reply == ErrorReply(CheckMovieHeaders(parsed.value).error))
      ensures reply.Answer? <==>
                && old(Refusal(req, apiKeyParam, now)).None? && ValidateCsvFile(file).None?
                && source.GetOr(DEFAULT_SOURCE) == DEFAULT_SOURCE && parsed.Ok? && CheckMovieHeaders(parsed.value).Ok?
      ensures reply.ErrorReply? ==> service.repo.memoryStore == old(service.repo.memoryStore) && trigger.None?
      ensures reply.Answer? ==>
                && ExtractApiKey(req, apiKeyParam).Some?
                && trigger == Some(ProcessTrigger(jobId, ExtractApiKey(req, apiKeyParam).value, MapImportOptions(dryRun, skipDuplicates), false))
                && var job := NewMoviesJob(parsed.value, file.value.originalName.value, Letterboxd, jobId, rowId, now);
                   service.repo.memoryStore == old(service.repo.memoryStore)[jobId := job] && reply.body == ToSummary(job)
    {
      var apiKey, err := Admit(req, apiKeyParam, now);
      if err.Some? {
        return ErrorReply(err.value), None;
      }
      var invalid := ValidateCsvFile(file);
      if invalid.Some? {
        return ErrorReply(invalid.value), None;
      }
      var chosen := source.GetOr(DEFAULT_SOURCE);
      if chosen != DEFAULT_SOURCE {
        return ErrorReply("Unsupported source \"" + chosen + "\""), None;
      }
      var r;
      r, trigger := service.CreateMoviesImport(parsed, file.value.originalName.value, apiKey.value,
                                             MapImportOptions(dryRun, skipDuplicates), jobId, rowId, now);
      reply := if r.Ok? then Answer(r.value) else ErrorReply(r.error);
    }

    /** `GET jobs/:jobId`. */
    method GetJob(req: Request, jobId: string, apiKeyParam: JsValue, now: int) returns (reply: Reply<ImportJobSummary>)
      modifies this
      ensures requestLog == old(LogAfterGuards(ExtractApiKey(req, apiKeyParam), now))
      ensures old(Refusal(req, apiKeyParam, now)).Some? ==> reply == ErrorReply(old(Refusal(req, apiKeyParam, now)).value)
      ensures old(Refusal(req, apiKeyParam, now)).None? ==>
                reply == (if jobId in service.repo.memoryStore then Answer(ToSummary(service.repo.memoryStore[jobId]))
                          else ErrorReply(JOB_NOT_FOUND_MESSAGE))
    {
      var apiKey, err := Admit(req, apiKeyParam, now);
      if err.Some? {
        return ErrorReply(err.value);
      }
      var job := service.GetJob(jobId);
      reply := if job.Some? then Answer(job.value) else ErrorReply(JOB_NOT_FOUND_MESSAGE);
    }

    /** `GET jobs`: `limit` and `offset` default to 25 and 0 when they are not numbers. */
    method ListJobs(req: Request, apiKeyParam: JsValue, limitParam: Option<string>, offsetParam: Option<string>, now: int)
      returns (reply: Reply<JobsPage>)
      requires service.repo.Valid()
      modifies this
      ensures requestLog == old(LogAfterGuards(ExtractApiKey(req, apiKeyParam), now))
      ensures old(Refusal(req, apiKeyParam, now)).Some? ==> reply == ErrorReply(old(Refusal(req, apiKeyParam, now)).value)
      ensures old(Refusal(req, apiKeyParam, now)).None? ==>
                reply.Answer? && service.repo.IsPageOf(reply.body, QueryNumber(limitParam, DEFAULT_JOBS_LIMIT), QueryNumber(offsetParam, 0))
    {
      var apiKey, err := Admit(req, apiKeyParam, now);
      if err.Some? {
        return ErrorReply(err.value);
      }
      var page := service.ListJobs(QueryNumber(limitParam, DEFAULT_JOBS_LIMIT), QueryNumber(offsetParam, 0));
      reply := Answer(page);
    }

    /** `GET jobs/:jobId/rows`: `limit` and `offset` default to 50 and 0 when
        they are not numbers; the status text is passed on as it is. */
    method GetJobRows(req: Request, jobId: string, apiKeyParam: JsValue, status: Option<string>,
                      limitParam: Option<string>, offsetParam: Option<string>, now: int)
      returns (reply: Reply<RowsPage>)
      modifies this
      ensures requestLog == old(LogAfterGuards(ExtractApiKey(req, apiKeyParam), now))
      ensures old(Refusal(req, apiKeyParam, now)).Some? ==> reply == ErrorReply(old(Refusal(req, apiKeyParam, now)).value)
      ensures old(Refusal(req, apiKeyParam, now)).None? ==>
                var page := service.repo.GetRows(jobId, status, QueryNumber(limitParam, DEFAULT_ROWS_LIMIT), QueryNumber(offsetParam, 0));
                reply == if page.Some? then Answer(page.value) else ErrorReply(JOB_NOT_FOUND_MESSAGE)
    {
      var apiKey, err := Admit(req, apiKeyParam, now);
      if err.Some? {
        return ErrorReply(err.value);
      }
      var rows := service.GetJobRows(jobId, status, QueryNumber(limitParam, DEFAULT_ROWS_LIMIT), QueryNumber(offsetParam, 0));
      reply := if rows.Some? then Answer(rows.value) else ErrorReply(JOB_NOT_FOUND_MESSAGE);
    }

    /** `POST jobs/:jobId/retry-failed`. */
    method RetryFailedRows(req: Request, jobId: string, apiKeyParam: JsValue, dryRun: Option<string>,
                           skipDuplicates: Option<string>, now: int)
      returns (reply: Reply<ImportJobSummary>, trigger: Option<ProcessTrigger>)
      requires service.repo.Valid()
      modifies this, service.repo
      ensures requestLog == old(LogAfterGuards(ExtractApiKey(req, apiKeyParam), now))
      ensures service.repo.Valid()
      ensures old(Refusal(req, apiKeyParam, now)).Some? ==>
                reply == ErrorReply(old(Refusal(req, apiKeyParam, now)).value) &&
                service.repo.memoryStore == old(service.repo.memoryStore) && trigger.None?
      ensures old(Refusal(req, apiKeyParam, now)).None? && jobId !in old(service.repo.memoryStore) ==>
                reply == ErrorReply(JOB_NOT_FOUND_MESSAGE) && service.repo.memoryStore == old(service.repo.memoryStore) &&
                trigger.None?
      ensures old(Refusal(req, apiKeyParam, now)).None? && jobId in old(service.repo.memoryStore) &&
              old(service.repo.memoryStore)[jobId].importType != Movies ==>
                reply == Answer(ToSummary(old(service.repo.memoryStore)[jobId])) &&
                service.repo.memoryStore == old(service.repo.memoryStore) && trigger.None?
      ensures old(Refusal(req, apiKeyParam, now)).None? && jobId in old(service.repo.memoryStore) &&
              old(service.repo.memoryStore)[jobId].importType == Movies ==>
                var retried := RetriedJob(old(service.repo.memoryStore)[jobId], now);
                && service.repo.memoryStore == old(service.repo.memoryStore)[jobId := retried]
                && reply == Answer(ToSummary(retried))
                && ExtractApiKey(req, apiKeyParam).Some?
                && trigger == Some(ProcessTrigger(jobId, ExtractApiKey(req, apiKeyParam).value, MapImportOptions(dryRun, skipDuplicates), true))
    {
      var apiKey, err := Admit(req, apiKeyParam, now);
      if err.Some? {
        return ErrorReply(err.value), None;
      }
      var options := MapImportOptions(dryRun, skipDuplicates);
      var job;
      job, trigger := service.RetryFailedRows(jobId, apiKey.value, options.dryRun, options.skipDuplicates, now);
      reply := if job.Some? then Answer(job.value) else ErrorReply(JOB_NOT_FOUND_MESSAGE);
    }
  }
}
