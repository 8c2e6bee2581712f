/** The stateful part of `src/bulk-import/bulk-import.service.ts`: the
    service with its `processingJobs` guard, creating a job, retrying its
    failed rows, and the row-by-row processing run. */
module ImportService {
  import opened Wrappers
  import opened Seqs
  import opened Text
  import opened ImportTypes
  import opened ImportRules
  import opened ImportRepository

  const MS_PER_DAY: int := 24 * 60 * 60 * 1000

  /** The UTC day of an instant, which is "today" for the watch-date rule.
      Instants before 1970 give day 0; every start year is later, so the
      rule treats them alike. */
  function UtcDay(now: int): (d: nat)
    ensures now >= 0 ==> d * MS_PER_DAY <= now < (d + 1) * MS_PER_DAY
  {
    if now < 0 then 0 else now / MS_PER_DAY
  }

  /** A `processJob` call deferred with `setImmediate`. */
  datatype ProcessTrigger = ProcessTrigger(jobId: string, apiKey: string, options: CreateMovieImportOptions, retryOnly: bool)

  function PassOptionsOf(options: CreateMovieImportOptions): PassOptions {
    PassOptions(options.dryRun, options.skipDuplicates)
  }

  /** The job `retryFailedRows` stores: failed rows back to pending, the job
      queued again without a completion time, counters recomputed. */
  function RetriedJob(job: ImportJob, now: int): (r: ImportJob)
    ensures |r.rows| == |job.rows|
    ensures forall k :: 0 <= k < |job.rows| ==>
              if job.rows[k].status == RowStatus.Failed
              then r.rows[k] == job.rows[k].(status := RowStatus.Pending, errorCode := None, errorMessage := None, updatedAt := now)
              else r.rows[k] == job.rows[k]
    ensures r.status == Queued && r.completedAt.None?
    ensures r == job.(rows := r.rows, status := Queued, completedAt := None, processedRows := r.processedRows,
                      successRows := r.successRows, failedRows := 0, skippedRows := r.skippedRows)
    ensures r.failedRows == 0
    ensures r.successRows == CountStatus(job.rows, Success) && r.skippedRows == CountStatus(job.rows, Skipped)
    ensures r.processedRows == r.successRows + r.skippedRows
    ensures CountStatus(r.rows, RowStatus.Pending) == CountStatus(job.rows, RowStatus.Pending) + CountStatus(job.rows, RowStatus.Failed)
  {
    ResetCounts(job.rows, now);
    RecalculateCounters(job.(rows := ResetFailedRows(job.rows, now), status := Queued, completedAt := None))
  }

  /** A retry followed by a run leaves successful and skipped rows as they
      were, and attempts every row that had failed once more. */
  lemma RetryThenRunRevisitsOnlyFailed(job: ImportJob, now: int, opts: PassOptions, remote: set<string>, today: nat,
                                        runAt: int, pick: nat -> nat, create: nat -> CreateOutcome, k: nat)
    requires k < |job.rows|
    ensures var after := RunJob(RetriedJob(job, now), opts, remote, today, runAt, pick, create);
      && (job.rows[k].status in {Success, Skipped} ==> after.rows[k] == job.rows[k])
      && (job.rows[k].status == RowStatus.Failed ==>
            after.rows[k].attemptCount == job.rows[k].attemptCount + 1 && after.rows[k].status != RowStatus.Pending)
  {
    var retried := RetriedJob(job, now);
    PassTouchesOnlyPending(StartRun(retried, runAt).rows, DedupeSets({}, remote), opts, today, runAt, pick, create, k);
  }

  /** The first test scenario of the service: a file holding the same title
      twice, imported as a dry run with duplicate skipping and no remote
      titles, completes with one success and one skipped row. */
  lemma DryRunWithRepeatedTitle(raw: RawRow, today: nat, now: int, jobId: string,
                                rowId: nat -> string, pick: nat -> nat, create: nat -> CreateOutcome)
    requires "Name" in raw && !IsBlank(raw["Name"])
    ensures var job := NewMoviesJob([raw, raw], "movies.csv", Letterboxd, jobId, rowId, now);
            var done := RunJob(job, PassOptions(true, true), {}, today, now, pick, create);
            done.status == Completed && done.successRows == 1 && done.skippedRows == 1 && done.failedRows == 0
  {
    var job := NewMoviesJob([raw, raw], "movies.csv", Letterboxd, jobId, rowId, now);
    var opts := PassOptions(true, true);
    var sets := DedupeSets({}, {});
    var rows := StartRun(job, now).rows;
    var out := Pass(rows, sets, opts, today, now, pick, create);
    assert rows[0].rawPayload == raw && rows[1].rawPayload == raw;
    PassAt(rows, 2, 0, sets, opts, today, now, pick, create);
    AcceptedRowOutcome(rows[0], sets, opts, today, now, pick(0), create(0));
    DuplicateTitleSkipped(rows, sets, opts, today, now, pick, create, 0, 1);
    CountOfPair(out, Success);
    CountOfPair(out, Skipped);
    CountOfPair(out, RowStatus.Failed);
  }

  lemma CountOfPair(rows: seq<ImportRow>, s: RowStatus)
    requires |rows| == 2
    ensures CountStatus(rows, s) == (if rows[0].status == s then 1 else 0) + (if rows[1].status == s then 1 else 0)
  {
    assert rows[1..][1..] == [];
  }

  class BulkImportService {
    const repo: JobStore
    /** Ids of the jobs a processing run is working on. */
    var processingJobs: set<string>

    constructor(repo: JobStore)
      ensures this.repo == repo && processingJobs == {}
    {
      this.repo := repo;
      processingJobs := {};
    }

    /** `createMoviesImport`, from the parser's answer on: a parse error or a
        failed header check is reported and stores nothing; otherwise the
        queued job is stored, a processing run is scheduled and its summary
        returned. */
    method CreateMoviesImport(parsed: Result<seq<RawRow>, string>, fileName: string, apiKey: string,
                              options: CreateMovieImportOptions, jobId: string, rowId: nat -> string, now: int)
      returns (r: Result<ImportJobSummary, string>, trigger: Option<ProcessTrigger>)
      requires repo.Valid()
      modifies repo
      ensures repo.Valid()
      ensures parsed.Err? ==> r == Err(parsed.error)
      ensures parsed.Ok? && CheckMovieHeaders(parsed.value).Err? ==> r == Err(CheckMovieHeaders(parsed.value).error)
      ensures r.Err? ==> repo.memoryStore == old(repo.memoryStore) && trigger.None?
      ensures r.Ok? <==> parsed.Ok? && CheckMovieHeaders(parsed.value).Ok?
      ensures r.Ok? ==>
                var job := NewMoviesJob(parsed.value, fileName, options.source, jobId, rowId, now);
                && repo.memoryStore == old(repo.memoryStore)[jobId := job]
                && r.value == ToSummary(job)
                && trigger == Some(ProcessTrigger(jobId, apiKey, options, false))
    {
      if parsed.Err? {
        return Err(parsed.error), None;
      }
      var checked := CheckMovieHeaders(parsed.value);
      if checked.Err? {
        return Err(checked.error), None;
      }
      var job := NewMoviesJob(checked.value, fileName, options.source, jobId, rowId, now);
      repo.Save(job);
      trigger := Some(ProcessTrigger(jobId, apiKey, options, false));
      r := Ok(ToSummary(job));
    }

    /** `getJob`: the summary of the stored job, or nothing. */
    function GetJob(jobId: string): (r: Option<ImportJobSummary>)
      reads repo
      ensures r.Some? <==> jobId in repo.memoryStore
      ensures r.Some? ==> r.value == ToSummary(repo.memoryStore[jobId])
    {
      match repo.Get(jobId)
      case None => None
      case Some(job) => Some(ToSummary(job))
    }

    /** `getJobRows`: the repository's row page, unchanged. */
    function GetJobRows(jobId: string, status: Option<string>, limit: int, offset: int): (r: Option<RowsPage>)
      reads repo
      ensures r == repo.GetRows(jobId, status, limit, offset)
    {
      repo.GetRows(jobId, status, limit, offset)
    }

    /** `listJobs`: the repository's listing, unchanged. */
    method ListJobs(limit: int, offset: int) returns (page: JobsPage)
      requires repo.Valid()
      ensures repo.IsPageOf(page, limit, offset)
    {
      page := repo.ListJobs(limit, offset);
    }

    /** `retryFailedRows`: nothing for an unknown job; a job of another type is
        summarised as it is; a movies job gets its failed rows reset, is
        stored queued again, and a retry run is scheduled. */
    method RetryFailedRows(jobId: string, apiKey: string, dryRun: bool, skipDuplicates: bool, now: int)
      returns (r: Option<ImportJobSummary>, trigger: Option<ProcessTrigger>)
      requires repo.Valid()
      modifies repo
      ensures repo.Valid()
      ensures jobId !in old(repo.memoryStore) ==> r.None? && trigger.None? && repo.memoryStore == old(repo.memoryStore)
      ensures jobId in old(repo.memoryStore) && old(repo.memoryStore)[jobId].importType != Movies ==>
                r == Some(ToSummary(old(repo.memoryStore)[jobId])) && trigger.None? &&
                repo.memoryStore == old(repo.memoryStore)
      ensures jobId in old(repo.memoryStore) && old(repo.memoryStore)[jobId].importType == Movies ==>
                var retried := RetriedJob(old(repo.memoryStore)[jobId], now);
                && repo.memoryStore == old(repo.memoryStore)[jobId := retried]
                && r == Some(ToSummary(retried))
                && trigger == Some(ProcessTrigger(jobId, apiKey, CreateMovieImportOptions(dryRun, skipDuplicates, Letterboxd), true))
    {
      var stored := repo.Get(jobId);
      if stored.None? {
        return None, None;
      }
      var job := stored.value;
      if job.importType != Movies {
        return Some(ToSummary(job)), None;
      }
      var rows := job.rows;
      var i := 0;
      while i < |rows|
        invariant 0 <= i <= |rows| == |job.rows|
        invariant forall k :: 0 <= k < i ==> rows[k] == ResetIfFailed(job.rows[k], now)
        invariant forall k :: i <= k < |rows| ==> rows[k] == job.rows[k]
      {
        if rows[i].status == RowStatus.Failed {
          rows := rows[i := rows[i].(status := RowStatus.Pending, errorCode := None, errorMessage := None, updatedAt := now)];
        }
        i := i + 1;
      }
      assert rows == ResetFailedRows(job.rows, now);
      var retried := RecalculateCounters(job.(rows := rows, status := Queued, completedAt := None));
      repo.Save(retried);
      trigger := Some(ProcessTrigger(jobId, apiKey, CreateMovieImportOptions(dryRun, skipDuplicates, Letterboxd), true));
      r := Some(ToSummary(retried));
    }

    /** The row loop of `processJob`: each pending row of the claimed job is
        stepped with the dedupe sets so far and the job is saved after it;
        other rows are passed over. The job ends as `Pass` of its rows. */
    method StepPendingRows(started: ImportJob, opts: PassOptions, remote: set<string>, today: nat, now: int,
                           pick: nat -> nat, create: nat -> CreateOutcome) returns (job: ImportJob)
      requires repo.Valid()
      requires started.id in repo.memoryStore && repo.memoryStore[started.id] == started
      modifies repo
      ensures repo.Valid()
      ensures job == started.(rows := Pass(started.rows, DedupeSets({}, remote), opts, today, now, pick, create))
      ensures repo.memoryStore == old(repo.memoryStore)[started.id := job]
    {
      var start := DedupeSets({}, remote);
      var sets := start;
      job := started;
      assert AfterPrefix(started.rows, 0, start, opts, today, now, pick, create) == ([] + started.rows[0..], start);
      assert [] + started.rows[0..] == started.rows;
      assert repo.memoryStore == old(repo.memoryStore)[started.id := job];
      var i := 0;
      while i < |job.rows|
        invariant 0 <= i <= |started.rows|
        invariant job == started.(rows := job.rows)
        invariant (job.rows, sets) == AfterPrefix(started.rows, i, start, opts, today, now, pick, create)
        invariant repo.memoryStore == old(repo.memoryStore)[started.id := job]
        invariant repo.Valid()
      {
        AfterPrefixStep(started.rows, i, start, opts, today, now, pick, create);
        if job.rows[i].status == RowStatus.Pending {
          var (next, sets') := ProcessRow(job.rows[i], sets, opts, today, now, pick(i), create(i));
          job := job.(rows := job.rows[i := next]);
          sets := sets';
          repo.Save(job);
        } else {
          assert job.rows[i := job.rows[i]] == job.rows;
        }
        i := i + 1;
      }
    }

    /** `processJob`. A run for a job already being processed, or for an
        unknown job, changes nothing. Otherwise the job is claimed, each
        pending row is stepped and saved in turn, the job is finalised and
        saved, and the claim is released: the stored job becomes `RunJob` of
        the job found. `retryOnly` does not change which rows are visited.
        `remote` is the remote dedupe set the run loads; `create(k)` is what
        the downstream service answers for row `k`; `pick(k)` is the random
        draw for row `k`'s watch date. */
    method ProcessJob(jobId: string, options: CreateMovieImportOptions, retryOnly: bool, remote: set<string>,
                      now: int, pick: nat -> nat, create: nat -> CreateOutcome)
      requires repo.Valid()
      modifies this, repo
      ensures repo.Valid()
      ensures processingJobs == old(processingJobs)
      ensures jobId in old(processingJobs) || jobId !in old(repo.memoryStore) ==>
                repo.memoryStore == old(repo.memoryStore)
      ensures jobId !in old(processingJobs) && jobId in old(repo.memoryStore) ==>
                repo.memoryStore == old(repo.memoryStore)[jobId :=
                  RunJob(old(repo.memoryStore)[jobId], PassOptionsOf(options), remote, UtcDay(now), now, pick, create)]
    {
      if jobId in processingJobs {
        return;
      }
      var stored := repo.Get(jobId);
      if stored.None? {
        return;
      }
      processingJobs := processingJobs + {jobId};
      var started := StartRun(stored.value, now);
      repo.Save(started);
      var job := StepPendingRows(started, PassOptionsOf(options), remote, UtcDay(now), now, pick, create);
      var finished := Finalise(job, now);
      repo.Save(finished);
      processingJobs := processingJobs - {jobId};
    }
  }
}
