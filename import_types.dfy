/** Records and statuses of the bulk-import engine (`src/bulk-import/types.ts`),
    and the status counts and filters over a job's rows that the service and
    the repository share. */
module ImportTypes {
  import opened Wrappers
  import opened Seqs
  import opened Calendar

  datatype ImportType = Movies | Shows
  datatype ImportSource = Letterboxd

  datatype JobStatus = Queued | Processing | Completed | Failed | Partial
  datatype RowStatus = Pending | Processing | Success | Failed | Skipped

  /** One parsed CSV record: column name to (already trimmed) cell text. */
  type RawRow = map<string, string>

  /** What normalisation derives from a valid row; the watch date is kept as
      its calendar fields rather than as `YYYY-MM-DD` text. */
  datatype MoviePayload = MoviePayload(
    title: string,
    date: CivilDate,
    yearHint: Option<int>,
    sourceUri: Option<string>)

  /** Timestamps (`updatedAt`, `createdAt`, ...) are instants in milliseconds:
      the source's ISO strings have one fixed format, so they order the same way. */
  datatype ImportRow = ImportRow(
    id: string,
    rowNumber: int,
    rawPayload: RawRow,
    normalizedPayload: Option<MoviePayload>,
    status: RowStatus,
    errorCode: Option<string>,
    errorMessage: Option<string>,
    targetRecordId: Option<string>,
    attemptCount: nat,
    updatedAt: int)

  datatype ImportJob = ImportJob(
    id: string,
    importType: ImportType,
    source: ImportSource,
    status: JobStatus,
    fileName: string,
    totalRows: nat,
    processedRows: nat,
    successRows: nat,
    failedRows: nat,
    skippedRows: nat,
    createdAt: int,
    updatedAt: int,
    startedAt: Option<int>,
    completedAt: Option<int>,
    rows: seq<ImportRow>)

  datatype CreateMovieImportOptions = CreateMovieImportOptions(
    dryRun: bool,
    skipDuplicates: bool,
    source: ImportSource)

  datatype RecentError = RecentError(rowNumber: int, errorCode: Option<string>, errorMessage: Option<string>)

  /** A job without its rows, plus the most recent failures. */
  datatype ImportJobSummary = ImportJobSummary(
    id: string,
    importType: ImportType,
    source: ImportSource,
    status: JobStatus,
    fileName: string,
    totalRows: nat,
    processedRows: nat,
    successRows: nat,
    failedRows: nat,
    skippedRows: nat,
    createdAt: int,
    updatedAt: int,
    startedAt: Option<int>,
    completedAt: Option<int>,
    recentErrors: seq<RecentError>)

  /** The wire name of a row status, as a `status` query parameter spells it. */
  function RowStatusName(s: RowStatus): string {
    match s
    case Pending => "pending"
    case Processing => "processing"
    case Success => "success"
    case Failed => "failed"
    case Skipped => "skipped"
  }

  function ParseRowStatus(name: string): (r: Option<RowStatus>)
    ensures r.Some? ==> RowStatusName(r.value) == name
    ensures forall s: RowStatus :: RowStatusName(s) == name ==> r == Some(s)
  {
    if name == "pending" then Some(RowStatus.Pending)
    else if name == "processing" then Some(RowStatus.Processing)
    else if name == "success" then Some(Success)
    else if name == "failed" then Some(RowStatus.Failed)
    else if name == "skipped" then Some(Skipped)
    else None
  }

  /** A row has left the work queue: neither pending nor processing. */
  predicate IsTerminal(s: RowStatus) {
    s != RowStatus.Pending && s != RowStatus.Processing
  }

  /** `rows.filter(row => row.status === s).length`. */
  function CountStatus(rows: seq<ImportRow>, s: RowStatus): (n: nat)
    ensures n <= |rows|
  {
    if rows == [] then 0 else (if rows[0].status == s then 1 else 0) + CountStatus(rows[1..], s)
  }

  /** The number of rows that are neither pending nor processing. */
  function CountTerminal(rows: seq<ImportRow>): (n: nat)
    ensures n <= |rows|
  {
    if rows == [] then 0 else (if IsTerminal(rows[0].status) then 1 else 0) + CountTerminal(rows[1..])
  }

  /** Terminal rows are exactly the successful, failed and skipped ones. */
  lemma {:induction false} TerminalIsSumOfOutcomes(rows: seq<ImportRow>)
    ensures CountTerminal(rows) ==
            CountStatus(rows, Success) + CountStatus(rows, RowStatus.Failed) + CountStatus(rows, Skipped)
  {
    if rows != [] {
      TerminalIsSumOfOutcomes(rows[1..]);
    }
  }

  /** A status count is positive exactly when some row has that status. */
  lemma {:induction false} CountPositiveIffExists(rows: seq<ImportRow>, s: RowStatus)
    ensures CountStatus(rows, s) > 0 <==> exists k :: 0 <= k < |rows| && rows[k].status == s
  {
    if rows != [] {
      CountPositiveIffExists(rows[1..], s);
      if CountStatus(rows[1..], s) > 0 {
        var k :| 0 <= k < |rows[1..]| && rows[1..][k].status == s;
        assert rows[k + 1].status == s;
      }
      if exists k :: 0 <= k < |rows| && rows[k].status == s {
        var k :| 0 <= k < |rows| && rows[k].status == s;
        if k > 0 {
          assert rows[1..][k - 1].status == s;
        }
      }
    }
  }

  /** When no row is pending or processing, every row counts as processed. */
  lemma {:induction false} AllTerminalCount(rows: seq<ImportRow>)
    requires forall k :: 0 <= k < |rows| ==> IsTerminal(rows[k].status)
    ensures CountTerminal(rows) == |rows|
  {
    if rows != [] {
      AllTerminalCount(rows[1..]);
    }
  }

  /** `rows.filter(row => row.status === s)`, in stored order. */
  function FilterStatus(rows: seq<ImportRow>, s: RowStatus): (r: seq<ImportRow>)
    ensures |r| == CountStatus(rows, s)
    ensures forall k :: 0 <= k < |r| ==> r[k].status == s
    ensures forall k :: 0 <= k < |rows| && rows[k].status == s ==> rows[k] in r
    ensures IsSubsequence(r, rows)
  {
    if rows == [] then []
    else
      var rest := FilterStatus(rows[1..], s);
      assert forall k :: 1 <= k < |rows| ==> rows[k] == rows[1..][k - 1];
      if rows[0].status == s then [rows[0]] + rest else rest
  }
}
