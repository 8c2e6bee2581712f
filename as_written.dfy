/** The processing run of `src/bulk-import/bulk-import.service.ts` as the
    code is written, for a release year far in the future.
    `generateRandomWatchDateAfterReleaseYear` builds January 1 of the start
    year with `Date.UTC`; past the ECMAScript time-value range (100 000 000
    days either side of the epoch) that is NaN, the chosen date is invalid and
    `toISOString` throws. The exception leaves `normalizeMovieRow` outside any
    per-row handler, so the loop stops with that row claimed as processing,
    the later rows untouched, and the `finally` block finalises the job.
    `ImportRules` models the evidently intended run, in which every pending
    row ends success, failed or skipped. */
module AsWritten {
  import opened Wrappers
  import opened Text
  import opened Calendar
  import opened ImportTypes
  import opened ImportRules

  /** The largest day number a JavaScript `Date` can hold (8.64e15 ms). */
  const MAX_DATE_DAY: nat := 100_000_000

  /** January 1 of year `y` lies between 365 and 366 days a year past the epoch. */
  lemma {:induction false} JanFirstBounds(y: int)
    requires y >= EPOCH_YEAR
    ensures 365 * (y - EPOCH_YEAR) <= JanFirst(y) <= 366 * (y - EPOCH_YEAR)
    decreases y - EPOCH_YEAR
  {
    if y > EPOCH_YEAR {
      JanFirstBounds(y - 1);
    }
  }

  /** Whether `normalizeMovieRow` throws on this pending row: its title is
      usable, so the watch date is drawn, and January 1 of the start year is
      past the range of `Date`. */
  predicate Throws(row: ImportRow) {
    && row.status == RowStatus.Pending
    && "Name" in row.rawPayload && !IsBlank(row.rawPayload["Name"])
    && JanFirst(StartYear(JsNumber(Cell(row.rawPayload, "Year")))) > MAX_DATE_DAY
  }

  /** A release year below 200 000 never makes the row throw. */
  lemma ModestYearNeverThrows(row: ImportRow, year: int)
    requires JsNumber(Cell(row.rawPayload, "Year")) == Some(year) && year < 200_000
    ensures !Throws(row)
  {
    JanFirstBounds(StartYear(Some(year)));
  }

  /** Whether each row throws, in row order. */
  function ThrowFlags(rows: seq<ImportRow>): (f: seq<bool>)
    ensures |f| == |rows| && forall j :: 0 <= j < |rows| ==> f[j] == Throws(rows[j])
  {
    seq(|rows|, j requires 0 <= j < |rows| => Throws(rows[j]))
  }

  /** The first index at `k` or later whose flag is set. */
  function FirstSet(flags: seq<bool>, k: nat): (r: Option<nat>)
    requires k <= |flags|
    ensures r.Some? ==> k <= r.value < |flags| && flags[r.value]
    decreases |flags| - k
  {
    if k == |flags| then None
    else if flags[k] then Some(k)
    else FirstSet(flags, k + 1)
  }

  /** No flag between `k` and the index found is set, and nothing is found
      exactly when no flag from `k` on is set. */
  lemma {:induction false} FirstSetIsFirst(flags: seq<bool>, k: nat)
    requires k <= |flags|
    ensures FirstSet(flags, k).Some? ==> forall j :: k <= j < FirstSet(flags, k).value ==> !flags[j]
    ensures FirstSet(flags, k).None? <==> forall j :: k <= j < |flags| ==> !flags[j]
    decreases |flags| - k
  {
    if k < |flags| && !flags[k] {
      FirstSetIsFirst(flags, k + 1);
    }
  }

  /** The first row on which the pass throws. */
  function FirstThrow(rows: seq<ImportRow>): (r: Option<nat>)
    ensures r.Some? ==> r.value < |rows| && Throws(rows[r.value])
  {
    FirstSet(ThrowFlags(rows), 0)
  }

  /** The row found is the first that throws, and none is found exactly when
      no row throws. */
  lemma FirstThrowIsFirst(rows: seq<ImportRow>)
    ensures FirstThrow(rows).Some? ==> forall j :: 0 <= j < FirstThrow(rows).value ==> !Throws(rows[j])
    ensures FirstThrow(rows).None? <==> forall j :: 0 <= j < |rows| ==> !Throws(rows[j])
  {
    FirstSetIsFirst(ThrowFlags(rows), 0);
  }

  /** The rows when the loop stops at row `a`: the rows before it stepped, row
      `a` claimed, the rest as they were. */
  function StalledAt(rows: seq<ImportRow>, a: nat, start: DedupeSets, opts: PassOptions, today: nat, now: int,
                     pick: nat -> nat, create: nat -> CreateOutcome): (r: seq<ImportRow>)
    requires a < |rows|
    ensures |r| == |rows|
    ensures r[..a] == PassPrefix(rows, a, start, opts, today, now, pick, create).0
    ensures r[a] == rows[a].(status := RowStatus.Processing, attemptCount := rows[a].attemptCount + 1, updatedAt := now)
    ensures r[a + 1..] == rows[a + 1..]
  {
    var claimed := rows[a].(status := RowStatus.Processing, attemptCount := rows[a].attemptCount + 1, updatedAt := now);
    var prefix := PassPrefix(rows, a, start, opts, today, now, pick, create).0;
    assert |prefix| == a;
    var r := prefix + [claimed] + rows[a + 1..];
    assert r[..a] == prefix;
    assert r[a + 1..] == rows[a + 1..];
    r
  }

  /** The loop of `processJob` as written: the rows before the first throwing
      row are stepped as usual; that row is left claimed, as processing with
      one more attempt; the rows after it are not visited. */
  function PassAsWritten(rows: seq<ImportRow>, start: DedupeSets, opts: PassOptions, today: nat, now: int,
                         pick: nat -> nat, create: nat -> CreateOutcome): (r: seq<ImportRow>)
    ensures |r| == |rows|
    ensures FirstThrow(rows).None? ==> r == Pass(rows, start, opts, today, now, pick, create)
    ensures FirstThrow(rows).Some? ==>
              var a := FirstThrow(rows).value;
              && r[..a] == PassPrefix(rows, a, start, opts, today, now, pick, create).0
              && r[a] == rows[a].(status := RowStatus.Processing, attemptCount := rows[a].attemptCount + 1, updatedAt := now)
              && r[a + 1..] == rows[a + 1..]
  {
    match FirstThrow(rows)
    case None => Pass(rows, start, opts, today, now, pick, create)
    case Some(a) => StalledAt(rows, a, start, opts, today, now, pick, create)
  }

  /** `processJob` as written: claim, the loop above, then the `finally` block. */
  function RunJobAsWritten(job: ImportJob, opts: PassOptions, remote: set<string>, today: nat, now: int,
                           pick: nat -> nat, create: nat -> CreateOutcome): ImportJob
  {
    var started := StartRun(job, now);
    Finalise(started.(rows := PassAsWritten(started.rows, DedupeSets({}, remote), opts, today, now, pick, create)), now)
  }

  /** Without a throwing row the run as written is the intended run. */
  lemma AsWrittenAgreesWithoutThrow(job: ImportJob, opts: PassOptions, remote: set<string>, today: nat, now: int,
                                    pick: nat -> nat, create: nat -> CreateOutcome)
    requires forall k :: 0 <= k < |job.rows| ==> !Throws(job.rows[k])
    ensures RunJobAsWritten(job, opts, remote, today, now, pick, create) == RunJob(job, opts, remote, today, now, pick, create)
  {
    FirstThrowIsFirst(StartRun(job, now).rows);
  }

  /** A release year of 300000 puts January 1 of the start year past the range of `Date`. */
  lemma FarFutureYearPastRange(yearHint: Option<int>)
    requires yearHint == Some(300000)
    ensures JanFirst(StartYear(yearHint)) > MAX_DATE_DAY
  {
    JanFirstBounds(StartYear(yearHint));
  }

  /** The decimal text of 300000. */
  lemma YearText()
    ensures NatToString(300000) == "300000"
  {
    assert NatToString(3) == "3";
    assert NatToString(30) == "30";
    assert NatToString(300) == "300";
    assert NatToString(3000) == "3000";
    assert NatToString(30000) == "30000";
  }

  /** The row of the example below throws: its title is usable and its year
      is past the range of `Date`. */
  lemma FarFutureRowThrows(row: ImportRow)
    requires row.status == RowStatus.Pending
    requires row.rawPayload == map["Date" := "2020-01-01", "Name" := "Heat", "Year" := "300000", "Letterboxd URI" := ""]
    ensures Throws(row)
  {
    assert row.rawPayload["Name"][0] == 'H' && !IsJsWhitespace('H');
    var yearHint := JsNumber(Cell(row.rawPayload, "Year"));
    assert yearHint == Some(300000) by {
      YearText();
      JsNumberRoundTrip(300000);
    }
    FarFutureYearPastRange(yearHint);
  }

  /** A job whose only row throws ends, as written, with that row processing,
      nothing processed and the job reported completed. */
  lemma LoneThrowingRowStalls(job: ImportJob, opts: PassOptions, remote: set<string>, today: nat, now: int,
                              pick: nat -> nat, create: nat -> CreateOutcome)
    requires |job.rows| == 1 && Throws(job.rows[0])
    ensures var w := RunJobAsWritten(job, opts, remote, today, now, pick, create);
            && w.rows[0].status == RowStatus.Processing
            && w.processedRows == 0
            && w.status == Completed
  {
    var started := StartRun(job, now);
    assert ThrowFlags(started.rows)[0];
    assert FirstThrow(started.rows) == Some(0);
    var w := RunJobAsWritten(job, opts, remote, today, now, pick, create);
    assert w.rows == [w.rows[0]];
    assert w.rows[0].status == RowStatus.Processing;
    assert CountStatus(w.rows, RowStatus.Failed) == 0;
  }

  /** A single row with release year 300000: as written the run ends with
      the row stuck as processing and the job reported completed with no row
      processed; the intended run leaves the row terminal and counted. */
  lemma FarFutureYearStallsRow(job: ImportJob, opts: PassOptions, remote: set<string>, today: nat, now: int,
                               pick: nat -> nat, create: nat -> CreateOutcome)
    requires |job.rows| == 1 && job.rows[0].status == RowStatus.Pending
    requires job.rows[0].rawPayload == map["Date" := "2020-01-01", "Name" := "Heat", "Year" := "300000", "Letterboxd URI" := ""]
    ensures var w := RunJobAsWritten(job, opts, remote, today, now, pick, create);
            && w.rows[0].status == RowStatus.Processing
            && w.processedRows == 0
            && w.status == Completed
    ensures var c := RunJob(job, opts, remote, today, now, pick, create);
            IsTerminal(c.rows[0].status) && c.processedRows == 1
  {
    FarFutureRowThrows(job.rows[0]);
    LoneThrowingRowStalls(job, opts, remote, today, now, pick, create);
    RunJobFinishes(job, opts, remote, today, now, pick, create);
  }
}
