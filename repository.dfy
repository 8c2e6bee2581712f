/** The in-memory branch of `src/bulk-import/bulk-import.repository.ts`: a
    map from job id to a stored copy of the job, with the row page and the
    job listing read from it. */
module ImportRepository {
  import opened Wrappers
  import opened Seqs
  import opened ImportTypes

  /** How many of the latest failures a summary reports. */
  const RECENT_ERRORS_LIMIT: nat := 20

  function ToRecentError(row: ImportRow): RecentError {
    RecentError(row.rowNumber, row.errorCode, row.errorMessage)
  }

  /** The last 20 failed rows, oldest first, as error entries. */
  function RecentErrors(rows: seq<ImportRow>): (r: seq<RecentError>)
    ensures |r| == Min(RECENT_ERRORS_LIMIT, CountStatus(rows, RowStatus.Failed))
    ensures var failed := FilterStatus(rows, RowStatus.Failed);
            forall k :: 0 <= k < |r| ==> r[k] == ToRecentError(failed[|failed| - |r| + k])
  {
    var last := LastN(FilterStatus(rows, RowStatus.Failed), RECENT_ERRORS_LIMIT);
    seq(|last|, k requires 0 <= k < |last| => ToRecentError(last[k]))
  }

  /** Every reported error comes from a failed row, and when there are no more
      than 20 failures each failed row is reported. */
  lemma RecentErrorsAreFailures(rows: seq<ImportRow>)
    ensures forall e :: e in RecentErrors(rows) ==>
              exists k :: 0 <= k < |rows| && rows[k].status == RowStatus.Failed && e == ToRecentError(rows[k])
    ensures CountStatus(rows, RowStatus.Failed) <= RECENT_ERRORS_LIMIT ==>
              forall k :: 0 <= k < |rows| && rows[k].status == RowStatus.Failed ==> ToRecentError(rows[k]) in RecentErrors(rows)
  {
    RecentErrorsFromFailures(rows);
    if CountStatus(rows, RowStatus.Failed) <= RECENT_ERRORS_LIMIT {
      FewFailuresAllReported(rows);
    }
  }

  /** Every reported error comes from a failed row. */
  lemma RecentErrorsFromFailures(rows: seq<ImportRow>)
    ensures forall e :: e in RecentErrors(rows) ==>
              exists k :: 0 <= k < |rows| && rows[k].status == RowStatus.Failed && e == ToRecentError(rows[k])
  {
    var failed := FilterStatus(rows, RowStatus.Failed);
    var r := RecentErrors(rows);
    forall e | e in r
      ensures exists k :: 0 <= k < |rows| && rows[k].status == RowStatus.Failed && e == ToRecentError(rows[k])
    {
      var i :| 0 <= i < |r| && r[i] == e;
      var row := failed[|failed| - |r| + i];
      assert row in failed && row.status == RowStatus.Failed && e == ToRecentError(row);
      SubsequenceMember(failed, rows, row);
      var k :| 0 <= k < |rows| && rows[k] == row;
    }
  }

  /** With at most 20 failures, every failed row is reported. */
  lemma FewFailuresAllReported(rows: seq<ImportRow>)
    requires CountStatus(rows, RowStatus.Failed) <= RECENT_ERRORS_LIMIT
    ensures forall k :: 0 <= k < |rows| && rows[k].status == RowStatus.Failed ==> ToRecentError(rows[k]) in RecentErrors(rows)
  {
    var failed := FilterStatus(rows, RowStatus.Failed);
    var r := RecentErrors(rows);
    assert |r| == |failed|;
    forall k | 0 <= k < |rows| && rows[k].status == RowStatus.Failed
      ensures ToRecentError(rows[k]) in r
    {
      var i :| 0 <= i < |failed| && failed[i] == rows[k];
      assert r[i] == ToRecentError(failed[i]);
    }
  }

  /** An element of a subsequence is an element of the whole. */
  lemma {:induction false} SubsequenceMember<T>(a: seq<T>, b: seq<T>, x: T)
    requires IsSubsequence(a, b) && x in a
    ensures x in b
    decreases |b|
  {
    if a[0] == b[0] && IsSubsequence(a[1..], b[1..]) {
      if x != a[0] {
        SubsequenceMember(a[1..], b[1..], x);
      }
    } else {
      SubsequenceMember(a, b[1..], x);
    }
  }

  /** `toSummary`: the job without its rows, plus its recent errors. */
  function ToSummary(job: ImportJob): (s: ImportJobSummary)
    ensures s.id == job.id && s.importType == job.importType && s.source == job.source
    ensures s.status == job.status && s.fileName == job.fileName
    ensures s.createdAt == job.createdAt && s.updatedAt == job.updatedAt
    ensures s.startedAt == job.startedAt && s.completedAt == job.completedAt
    ensures s.totalRows == job.totalRows && s.processedRows == job.processedRows
    ensures s.successRows == job.successRows && s.failedRows == job.failedRows && s.skippedRows == job.skippedRows
    ensures s.recentErrors == RecentErrors(job.rows)
  {
    ImportJobSummary(job.id, job.importType, job.source, job.status, job.fileName, job.totalRows,
                     job.processedRows, job.successRows, job.failedRows, job.skippedRows,
                     job.createdAt, job.updatedAt, job.startedAt, job.completedAt, RecentErrors(job.rows))
  }

  function Summaries(jobs: seq<ImportJob>): (r: seq<ImportJobSummary>)
    ensures |r| == |jobs| && forall k :: 0 <= k < |jobs| ==> r[k] == ToSummary(jobs[k])
  {
    seq(|jobs|, k requires 0 <= k < |jobs| => ToSummary(jobs[k]))
  }

  /** The answer of `getRows`: how many rows match, and the requested page of them. */
  datatype RowsPage = RowsPage(total: nat, rows: seq<ImportRow>)

  /** The rows a status query selects. A missing or empty status selects every
      row; any other text selects the rows whose status has that name, so an
      unknown name selects none. */
  function SelectRows(rows: seq<ImportRow>, status: Option<string>): (r: seq<ImportRow>)
    ensures status.None? || status.value == "" ==> r == rows
    ensures status.Some? && status.value != "" ==>
              && IsSubsequence(r, rows)
              && (forall k :: 0 <= k < |r| ==> RowStatusName(r[k].status) == status.value)
              && (forall k :: 0 <= k < |rows| && RowStatusName(rows[k].status) == status.value ==> rows[k] in r)
  {
    if status.None? || status.value == "" then rows
    else
      match ParseRowStatus(status.value)
      case Some(s) => FilterStatus(rows, s)
      case None => []
  }

  /** The answer of `listJobs`. */
  datatype JobsPage = JobsPage(total: nat, jobs: seq<ImportJobSummary>)

  /** Sorted by creation time, newest first. */
  predicate NewestFirst(jobs: seq<ImportJob>) {
    forall i, j :: 0 <= i < j < |jobs| ==> jobs[i].createdAt >= jobs[j].createdAt
  }

  /** A job no older than every job of a newest-first sequence may go in front. */
  lemma PrependNewest(job: ImportJob, jobs: seq<ImportJob>)
    requires NewestFirst(jobs)
    requires forall k :: 0 <= k < |jobs| ==> job.createdAt >= jobs[k].createdAt
    ensures NewestFirst([job] + jobs)
  {
  }

  /** A head no older than the tail and than `job` is no older than any
      rearrangement of the tail with `job` added. */
  lemma HeadStaysNewest(head: ImportJob, tail: seq<ImportJob>, job: ImportJob, rest: seq<ImportJob>)
    requires NewestFirst([head] + tail) && head.createdAt > job.createdAt
    requires multiset(rest) == multiset(tail) + multiset{job}
    ensures forall k :: 0 <= k < |rest| ==> head.createdAt >= rest[k].createdAt
  {
    var jobs := [head] + tail;
    forall k | 0 <= k < |rest| ensures head.createdAt >= rest[k].createdAt {
      assert rest[k] in multiset(rest);
      if rest[k] != job {
        var p :| 0 <= p < |tail| && tail[p] == rest[k];
        assert jobs[0] == head && jobs[p + 1] == rest[k];
      }
    }
  }

  /** Insert `job` into a newest-first sequence, ahead of the jobs created at
      the same instant. */
  function InsertNewestFirst(jobs: seq<ImportJob>, job: ImportJob): (r: seq<ImportJob>)
    requires NewestFirst(jobs)
    ensures NewestFirst(r)
    ensures multiset(r) == multiset(jobs) + multiset{job}
    decreases |jobs|
  {
    if jobs == [] || job.createdAt >= jobs[0].createdAt then
      PrependNewest(job, jobs);
      [job] + jobs
    else
      var tail := jobs[1..];
      var rest := InsertNewestFirst(tail, job);
      assert jobs == [jobs[0]] + tail;
      HeadStaysNewest(jobs[0], tail, job, rest);
      PrependNewest(jobs[0], rest);
      [jobs[0]] + rest
  }

  class JobStore {
    /** Job id to the stored copy of the job. */
    var memoryStore: map<string, ImportJob>

    /** Every job is stored under its own id. */
    ghost predicate Valid()
      reads this
    {
      forall id :: id in memoryStore ==> memoryStore[id].id == id
    }

    constructor()
      ensures memoryStore == map[] && Valid()
    {
      memoryStore := map[];
    }

    /** `save`: store a copy of the job under its id, replacing any earlier
        copy. Jobs are values here, so later changes to the caller's job
        cannot reach the stored copy. */
    method Save(job: ImportJob)
      modifies this
      ensures memoryStore == old(memoryStore)[job.id := job]
      ensures Get(job.id) == Some(job)
      ensures forall id :: id != job.id ==> Get(id) == old(Get(id))
      ensures old(Valid()) ==> Valid()
    {
      memoryStore := memoryStore[job.id := job];
    }

    /** `get`: the stored copy, or nothing for an unknown id. */
    function Get(jobId: string): (r: Option<ImportJob>)
      reads this
      ensures r.Some? <==> jobId in memoryStore
      ensures r.Some? ==> r.value == memoryStore[jobId]
    {
      if jobId in memoryStore then Some(memoryStore[jobId]) else None
    }

    /** `getRows`: nothing for an unknown job; otherwise the number of rows the
        status selects and `slice(offset, offset + limit)` of them. */
    function GetRows(jobId: string, status: Option<string>, limit: int, offset: int): (r: Option<RowsPage>)
      reads this
      ensures r.Some? <==> jobId in memoryStore
      ensures r.Some? ==> r.value.total == |SelectRows(memoryStore[jobId].rows, status)|
      ensures r.Some? ==> r.value.rows == JsSlice(SelectRows(memoryStore[jobId].rows, status), offset, offset + limit)
    {
      if jobId !in memoryStore then None
      else
        var selected := SelectRows(memoryStore[jobId].rows, status);
        Some(RowsPage(|selected|, JsSlice(selected, offset, offset + limit)))
    }

    /** `listing` holds the stored jobs newest first, each once and nothing else. */
    ghost predicate IsListing(listing: seq<ImportJob>)
      reads this
    {
      && NewestFirst(listing) && |listing| == |memoryStore| && DistinctIds(listing)
      && forall j :: j in listing <==> j in memoryStore.Values
    }

    /** `listing` holds, newest first, the stored jobs whose ids are `done`, each once. */
    ghost predicate ListsKeys(listing: seq<ImportJob>, done: set<string>)
      reads this
    {
      && NewestFirst(listing) && |listing| == |done| && DistinctIds(listing)
      && (forall j :: j in listing ==> j.id in done && j.id in memoryStore && memoryStore[j.id] == j)
      && (forall id :: id in done ==> id in memoryStore && memoryStore[id] in listing)
    }

    /** Inserting one more stored job extends the listing by its id. */
    lemma ListsKeysStep(listing: seq<ImportJob>, done: set<string>, id: string)
      requires Valid() && ListsKeys(listing, done)
      requires id in memoryStore && id !in done
      ensures ListsKeys(InsertNewestFirst(listing, memoryStore[id]), done + {id})
    {
      var job := memoryStore[id];
      var next := InsertNewestFirst(listing, job);
      InsertMembers(listing, job);
      InsertKeepsIdsDistinct(listing, job);
      assert |multiset(next)| == |multiset(listing)| + 1;
    }

    /** The stored jobs, newest first: each stored job once, nothing else. */
    method SortedJobs() returns (listing: seq<ImportJob>)
      requires Valid()
      ensures IsListing(listing)
    {
      listing := [];
      var remaining := memoryStore.Keys;
      ghost var done: set<string> := {};
      while remaining != {}
        invariant remaining <= memoryStore.Keys && done == memoryStore.Keys - remaining
        invariant ListsKeys(listing, done)
        decreases |remaining|
      {
        var id :| id in remaining;
        ListsKeysStep(listing, done, id);
        listing := InsertNewestFirst(listing, memoryStore[id]);
        remaining := remaining - {id};
        done := done + {id};
      }
      assert forall j :: j in memoryStore.Values ==> j.id in memoryStore && memoryStore[j.id] == j;
    }

    /** `page` answers `listJobs(limit, offset)`: the number of stored jobs,
        and the summaries of `slice(offset, offset + limit)` of a listing. */
    ghost predicate IsPageOf(page: JobsPage, limit: int, offset: int)
      reads this
    {
      && page.total == |memoryStore|
      && exists listing: seq<ImportJob> :: IsListing(listing) && page.jobs == Summaries(JsSlice(listing, offset, offset + limit))
    }

    /** `listJobs`: the number of stored jobs, whatever the page, and the
        summaries of the requested page of the stored jobs newest first. */
    method ListJobs(limit: int, offset: int) returns (page: JobsPage)
      requires Valid()
      ensures IsPageOf(page, limit, offset)
    {
      var listing := SortedJobs();
      assert IsListing(listing);
      page := JobsPage(|memoryStore|, Summaries(JsSlice(listing, offset, offset + limit)));
    }
  }

  /** No two jobs share an id. */
  predicate DistinctIds(jobs: seq<ImportJob>) {
    forall i, k :: 0 <= i < k < |jobs| ==> jobs[i].id != jobs[k].id
  }

  /** Inserting adds the job and nothing else. */
  lemma InsertMembers(jobs: seq<ImportJob>, job: ImportJob)
    requires NewestFirst(jobs)
    ensures forall j :: j in InsertNewestFirst(jobs, job) <==> j in jobs || j == job
  {
    var r := InsertNewestFirst(jobs, job);
    assert forall j :: j in r <==> j in multiset(r);
    assert forall j :: j in jobs <==> j in multiset(jobs);
  }

  /** Inserting a job whose id is new keeps the ids distinct. */
  lemma {:induction false} InsertKeepsIdsDistinct(jobs: seq<ImportJob>, job: ImportJob)
    requires NewestFirst(jobs) && DistinctIds(jobs)
    requires forall j :: j in jobs ==> j.id != job.id
    ensures DistinctIds(InsertNewestFirst(jobs, job))
    decreases |jobs|
  {
    if !(jobs == [] || job.createdAt >= jobs[0].createdAt) {
      var tail := jobs[1..];
      var rest := InsertNewestFirst(tail, job);
      InsertKeepsIdsDistinct(tail, job);
      forall x | x in rest ensures x.id != jobs[0].id {
        assert x in multiset(rest);
        assert x in tail || x == job;
      }
      assert InsertNewestFirst(jobs, job) == [jobs[0]] + rest;
    }
  }
}
