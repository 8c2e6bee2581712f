/** The pure rules of `src/bulk-import/bulk-import.service.ts`: the header
    check, row normalisation with its watch-date rule, one row's transition,
    the per-row pass over a job, counter recomputation, finalisation and the
    retry reset. The service class drives them step by step. */
module ImportRules {
  import opened Wrappers
  import opened Seqs
  import opened Text
  import opened Calendar
  import opened ImportTypes

  const REQUIRED_MOVIE_HEADERS: seq<string> := ["Date", "Name", "Year", "Letterboxd URI"]
  const MIN_RANDOM_WATCH_YEAR: int := 2010

  const NO_ROWS_MESSAGE: string := "CSV has no rows"
  const MISSING_HEADERS_PREFIX: string := "Missing required headers: "

  const INVALID_TITLE: string := "INVALID_TITLE"
  const INVALID_TITLE_MESSAGE: string := "Name is blank"
  const DUPLICATE_IN_FILE: string := "DUPLICATE_IN_FILE"
  const DUPLICATE_IN_FILE_MESSAGE: string := "Duplicate title in this upload"
  const DUPLICATE_REMOTE: string := "DUPLICATE_REMOTE"
  const DUPLICATE_REMOTE_MESSAGE: string := "Movie already exists in api.ashish.me"
  const UPSERT_FAILED: string := "UPSERT_FAILED"
  const UPSERT_EXCEPTION: string := "UPSERT_EXCEPTION"
  const DRY_RUN_TARGET: string := "dry-run"

  // ---------------------------------------------------------------- headers

  /** The required headers absent from `keys`, in the order they are required. */
  function MissingHeaders(required: seq<string>, keys: set<string>): (r: seq<string>)
    ensures forall h :: h in r <==> h in required && h !in keys
    ensures IsSubsequence(r, required)
  {
    if required == [] then []
    else
      var rest := MissingHeaders(required[1..], keys);
      assert forall h :: h in required <==> h == required[0] || h in required[1..];
      if required[0] !in keys then [required[0]] + rest else rest
  }

  /** The header check of `parseMoviesCsv` on the parsed records: no records is
      an error, and so is a first record that lacks a required column. */
  function CheckMovieHeaders(parsed: seq<RawRow>): (r: Result<seq<RawRow>, string>)
    ensures parsed == [] ==> r == Err(NO_ROWS_MESSAGE)
    ensures parsed != [] ==> (r.Ok? <==> forall h :: h in REQUIRED_MOVIE_HEADERS ==> h in parsed[0].Keys)
    ensures r.Ok? ==> r.value == parsed
    ensures parsed != [] && r.Err? ==>
              r.error == MISSING_HEADERS_PREFIX + Join(MissingHeaders(REQUIRED_MOVIE_HEADERS, parsed[0].Keys), ", ")
  {
    if parsed == [] then Err(NO_ROWS_MESSAGE)
    else
      var missing := MissingHeaders(REQUIRED_MOVIE_HEADERS, parsed[0].Keys);
      assert missing != [] ==> missing[0] in missing;
      if |missing| > 0 then Err(MISSING_HEADERS_PREFIX + Join(missing, ", ")) else Ok(parsed)
  }

  /** A file without the `Year` column is refused, naming `Year` alone. */
  lemma MissingYearIsReported(first: RawRow, rest: seq<RawRow>)
    requires first.Keys == {"Date", "Name", "Letterboxd URI"}
    ensures CheckMovieHeaders([first] + rest) == Err("Missing required headers: Year")
  {
    var keys := first.Keys;
    assert ([first] + rest)[0] == first;
    assert MissingHeaders(REQUIRED_MOVIE_HEADERS[4..], keys) == [];
    assert MissingHeaders(REQUIRED_MOVIE_HEADERS[3..], keys) == [];
    assert MissingHeaders(REQUIRED_MOVIE_HEADERS[2..], keys) == ["Year"];
    assert MissingHeaders(REQUIRED_MOVIE_HEADERS[1..], keys) == ["Year"];
    assert MissingHeaders(REQUIRED_MOVIE_HEADERS, keys) == ["Year"];
    assert MISSING_HEADERS_PREFIX + Join(["Year"], ", ") == "Missing required headers: Year";
  }

  /** The test suite's header `Date,Title,Year,Link` misses `Name` and `Letterboxd URI`. */
  lemma RenamedColumnsAreReported(first: RawRow, rest: seq<RawRow>)
    requires first.Keys == {"Date", "Title", "Year", "Link"}
    ensures CheckMovieHeaders([first] + rest) == Err("Missing required headers: Name, Letterboxd URI")
  {
    assert ([first] + rest)[0] == first;
    RenamedColumnsMissing(first.Keys);
    NameAndUriMessage();
  }

  /** The required headers absent from `Date,Title,Year,Link`. */
  lemma RenamedColumnsMissing(keys: set<string>)
    requires keys == {"Date", "Title", "Year", "Link"}
    ensures MissingHeaders(REQUIRED_MOVIE_HEADERS, keys) == ["Name", "Letterboxd URI"]
  {
    assert MissingHeaders(REQUIRED_MOVIE_HEADERS[4..], keys) == [];
    assert MissingHeaders(REQUIRED_MOVIE_HEADERS[3..], keys) == ["Letterboxd URI"];
    assert MissingHeaders(REQUIRED_MOVIE_HEADERS[2..], keys) == ["Letterboxd URI"];
    assert MissingHeaders(REQUIRED_MOVIE_HEADERS[1..], keys) == ["Name", "Letterboxd URI"];
  }

  /** The message that names the two missing headers. */
  lemma NameAndUriMessage()
    ensures MISSING_HEADERS_PREFIX + Join(["Name", "Letterboxd URI"], ", ") == "Missing required headers: Name, Letterboxd URI"
  {
    assert Join(["Name", "Letterboxd URI"], ", ") == "Name" + ", " + "Letterboxd URI";
  }

  // ------------------------------------------------------------ year number

  predicate IsDigit(c: char) { '0' <= c <= '9' }

  function DigitsValue(ds: string): (n: nat)
    requires forall k :: 0 <= k < |ds| ==> IsDigit(ds[k])
  {
    if ds == [] then 0
    else
      var last := ds[|ds| - 1];
      assert IsDigit(last);
      10 * DigitsValue(ds[..|ds| - 1]) + (last as int - '0' as int)
  }

  /** The largest integer a double holds exactly, 2^53 - 1. */
  const MAX_SAFE_INTEGER: int := 9007199254740991

  /** The smallest magnitude that `Number` rounds to Infinity, 2^1024 - 2^970:
      the midpoint between the largest double and 2^1024. */
  const DOUBLE_OVERFLOW: int :=
    179769313486231580793728971405303415079934132710037826936173778980444968292764750946649017977587207096330286416692887910946555547851940402630657488671505820681908902000708383676273854845817711531764475730270069855571366959622842914819860834936475292719074168444365510704342711559699508093042880177904174497792

  /** A digit magnitude as `Number` reads it: None when it rounds to Infinity,
      which `Number.isFinite` rejects. */
  function FiniteMagnitude(magnitude: nat, negative: bool): (r: Option<int>)
    ensures r.Some? <==> magnitude < DOUBLE_OVERFLOW
    ensures r.Some? ==> r.value == if negative then -(magnitude as int) else magnitude
  {
    if magnitude >= DOUBLE_OVERFLOW then None
    else Some(if negative then -(magnitude as int) else magnitude)
  }

  /** `Number(text)` where the answer is finite, for the integer forms that
      the Year cell and the numeric query and configuration values take: None
      (NaN or an infinity) for a missing value, for text that is not a
      decimal integer and for a magnitude past the double range, 0 for blank
      text. */
  function JsNumber(cell: Option<string>): (r: Option<int>)
  {
    if cell.None? then None else DecimalNumber(Trim(cell.value))
  }

  /** `Number` of text without surrounding whitespace. */
  function DecimalNumber(t: string): (r: Option<int>)
  {
    if t == [] then Some(0)
    else if t[0] == '-' || t[0] == '+' then
      var ds := t[1..];
      if ds != [] && forall k :: 0 <= k < |ds| ==> IsDigit(ds[k])
      then FiniteMagnitude(DigitsValue(ds), t[0] == '-')
      else None
    else if forall k :: 0 <= k < |t| ==> IsDigit(t[k]) then FiniteMagnitude(DigitsValue(t), false)
    else None
  }

  /** Reading back the decimal text of a year gives the year. */
  lemma {:induction false} DigitsRoundTrip(n: nat)
    ensures DigitsValue(NatToString(n)) == n
  {
    if n >= 10 {
      DigitsRoundTrip(n / 10);
      DigitsAppend(NatToString(n / 10), n % 10);
    }
  }

  /** Appending a digit multiplies the value by ten and adds the digit. */
  lemma DigitsAppend(ds: string, d: nat)
    requires d < 10 && forall k :: 0 <= k < |ds| ==> IsDigit(ds[k])
    ensures forall k :: 0 <= k < |ds + [DigitChar(d)]| ==> IsDigit((ds + [DigitChar(d)])[k])
    ensures DigitsValue(ds + [DigitChar(d)]) == 10 * DigitsValue(ds) + d
  {
    var s := ds + [DigitChar(d)];
    assert s[..|s| - 1] == ds;
  }

  /** Digit text has nothing for `trim` to remove. */
  lemma DigitsAreTrimmed(s: string)
    requires s != [] && forall k :: 0 <= k < |s| ==> '0' <= s[k] <= '9'
    ensures Trim(s) == s
  {
    assert !IsJsWhitespace(s[0]);
    assert TrimStart(s) == s;
    assert !IsJsWhitespace(s[|s| - 1]);
    assert TrimEnd(s) == s;
  }

  /** Unsigned digit text reads as its value, as far as the double range
      reaches. */
  lemma JsNumberOfDigits(s: string)
    requires s != [] && forall k :: 0 <= k < |s| ==> '0' <= s[k] <= '9'
    ensures JsNumber(Some(s)) == FiniteMagnitude(DigitsValue(s), false)
  {
    DigitsAreTrimmed(s);
    assert s[0] != '-' && s[0] != '+';
    assert forall k :: 0 <= k < |s| ==> IsDigit(s[k]);
  }

  /** A minus sign followed by digits reads as the negated value, as far as
      the double range reaches. */
  lemma JsNumberOfNegativeDigits(s: string)
    requires |s| >= 2 && s[0] == '-' && forall k :: 1 <= k < |s| ==> '0' <= s[k] <= '9'
    ensures forall k :: 0 <= k < |s[1..]| ==> IsDigit(s[1..][k])
    ensures JsNumber(Some(s)) == FiniteMagnitude(DigitsValue(s[1..]), true)
  {
    assert '0' <= s[|s| - 1] <= '9';
    EdgesTrimmed(s);
    var ds := s[1..];
    forall k | 0 <= k < |ds| ensures IsDigit(ds[k]) {
      assert ds[k] == s[k + 1];
    }
  }

  /** `Number` of the decimal text of an integer that a double holds exactly
      is that integer. */
  lemma JsNumberRoundTrip(n: nat)
    requires n <= MAX_SAFE_INTEGER
    ensures JsNumber(Some(NatToString(n))) == Some(n)
  {
    JsNumberOfDigits(NatToString(n));
    DigitsRoundTrip(n);
  }

  /** The same for the decimal text of any integer, a minus sign included. */
  lemma JsNumberIntRoundTrip(n: int)
    requires -MAX_SAFE_INTEGER <= n <= MAX_SAFE_INTEGER
    ensures JsNumber(Some(IntToString(n))) == Some(n)
  {
    if n >= 0 {
      assert IntToString(n) == NatToString(n);
      JsNumberRoundTrip(n);
    } else {
      assert IntToString(n) == "-" + NatToString(-n);
      JsNumberNegativeRoundTrip(-n);
    }
  }

  lemma JsNumberNegativeRoundTrip(m: nat)
    requires m <= MAX_SAFE_INTEGER
    ensures JsNumber(Some("-" + NatToString(m))) == Some(-(m as int))
  {
    DigitsRoundTrip(m);
    NegativeDigitsRead(NatToString(m), m);
  }

  /** A minus sign before digits of a value within the double range reads
      as the negated value. */
  lemma NegativeDigitsRead(digits: string, m: nat)
    requires digits != [] && forall k :: 0 <= k < |digits| ==> '0' <= digits[k] <= '9'
    requires DigitsValue(digits) == m && m < DOUBLE_OVERFLOW
    ensures JsNumber(Some("-" + digits)) == Some(-(m as int))
  {
    NegatedText(digits);
    JsNumberOfNegativeDigits("-" + digits);
  }

  /** A minus sign before decimal digits: the digits follow the sign. */
  lemma NegatedText(digits: string)
    requires digits != [] && forall k :: 0 <= k < |digits| ==> '0' <= digits[k] <= '9'
    ensures var s := "-" + digits;
      && |s| >= 2 && s[0] == '-' && s[1..] == digits
      && forall k :: 1 <= k < |s| ==> '0' <= s[k] <= '9'
  {
    var s := "-" + digits;
    assert s[1..] == digits;
    forall k | 1 <= k < |s| ensures '0' <= s[k] <= '9' {
      assert s[k] == digits[k - 1];
    }
  }

  /** Text holding a character that is neither a digit, a sign nor
      whitespace is NaN. */
  lemma NonNumericIsNaN(text: string, at: nat)
    requires at < |text| && !IsDigit(text[at]) && text[at] != '-' && text[at] != '+' && !IsJsWhitespace(text[at])
    ensures JsNumber(Some(text)) == None
  {
    TrimKeepsVisible(text, at);
    NonNumericTrimmedIsNaN(Trim(text), at - (|text| - |TrimStart(text)|));
  }

  /** The same once the text is trimmed. */
  lemma NonNumericTrimmedIsNaN(t: string, p: nat)
    requires p < |t| && !IsDigit(t[p]) && t[p] != '-' && t[p] != '+'
    ensures DecimalNumber(t) == None
  {
    if t[0] == '-' || t[0] == '+' {
      var ds := t[1..];
      assert p >= 1 && ds[p - 1] == t[p];
      assert !IsDigit(ds[p - 1]);
    } else {
      assert !IsDigit(t[p]);
    }
  }

  /** Digit text whose value lies past the double range reads as Infinity,
      which the finite test rejects. */
  lemma JsNumberPastDoubleRange(n: nat)
    requires n >= DOUBLE_OVERFLOW
    ensures JsNumber(Some(NatToString(n))) == None
  {
    JsNumberOfDigits(NatToString(n));
    DigitsRoundTrip(n);
  }

  // ------------------------------------------------------------- watch date

  /** The first year a watch date may fall in: the year after release, never
      before 2010; a missing or zero year gives 2010. */
  function StartYear(yearHint: Option<int>): (y: int)
    ensures y >= MIN_RANDOM_WATCH_YEAR
    ensures yearHint.Some? && yearHint.value != 0 ==> y >= yearHint.value + 1
    ensures y == MIN_RANDOM_WATCH_YEAR || (yearHint.Some? && yearHint.value != 0 && y == yearHint.value + 1)
  {
    var normalized := yearHint;
    Max(MIN_RANDOM_WATCH_YEAR, if normalized.Some? && normalized.value != 0 then normalized.value + 1 else MIN_RANDOM_WATCH_YEAR)
  }

  /** The chosen watch day: `randomInt(daysRange + 1)` days after January 1 of
      the start year, where the range ends today or, when that January 1 is
      later than today, on that January 1 itself. `pick` is the random source;
      `pick % (daysRange + 1)` is the value `randomInt` draws. */
  function WatchDay(yearHint: Option<int>, today: nat, pick: nat): (d: nat)
    ensures JanFirst(StartYear(yearHint)) <= d <= Max(JanFirst(StartYear(yearHint)), today)
    ensures JanFirst(StartYear(yearHint)) >= today ==> d == JanFirst(StartYear(yearHint))
  {
    var start := JanFirst(StartYear(yearHint));
    var end := if start > today then start else today;
    var daysRange := end - start;
    var offset := if daysRange > 0 then pick % (daysRange + 1) else 0;
    start + offset
  }

  /** Every day of the range is drawn for some value of the random source. */
  lemma WatchDayCoversRange(yearHint: Option<int>, today: nat, d: nat)
    requires JanFirst(StartYear(yearHint)) <= d <= Max(JanFirst(StartYear(yearHint)), today)
    ensures exists pick: nat :: WatchDay(yearHint, today, pick) == d
  {
    var start := JanFirst(StartYear(yearHint));
    var pick: nat := d - start;
    if start < today {
      assert pick < today - start + 1;
      assert pick % (today - start + 1) == pick;
    }
    assert WatchDay(yearHint, today, pick) == d;
  }

  /** The watch date as a calendar date: its year is never before the start year. */
  function WatchDate(yearHint: Option<int>, today: nat, pick: nat): (c: CivilDate)
    ensures IsValidDate(c)
    ensures c.year >= StartYear(yearHint) >= MIN_RANDOM_WATCH_YEAR
    ensures c == ToCivil(WatchDay(yearHint, today, pick))
  {
    var d := WatchDay(yearHint, today, pick);
    YearLowerBound(StartYear(yearHint), d);
    ToCivil(d)
  }

  /** When January 1 of the start year is not before today, the watch date is that January 1. */
  lemma FutureStartGivesJanuaryFirst(yearHint: Option<int>, today: nat, pick: nat)
    requires JanFirst(StartYear(yearHint)) >= today
    ensures WatchDate(yearHint, today, pick) == CivilDate(StartYear(yearHint), 1, 1)
  {
    JanFirstIsJanuaryFirst(StartYear(yearHint));
  }

  // ---------------------------------------------------------- normalisation

  datatype Normalized = Valid(payload: MoviePayload) | Invalid(errorCode: string, errorMessage: string)

  function Cell(row: RawRow, column: string): Option<string> {
    if column in row then Some(row[column]) else None
  }

  /** `normalizeMovieRow` with "today" and the random source passed in. */
  function NormalizeMovieRow(row: RawRow, today: nat, pick: nat): (r: Normalized)
    ensures r.Invalid? <==> Cell(row, "Name").None? || IsBlank(row["Name"])
    ensures r.Invalid? ==> r.errorCode == INVALID_TITLE && r.errorMessage == INVALID_TITLE_MESSAGE
    ensures r.Valid? ==> r.payload.title == Trim(row["Name"]) && r.payload.title != []
    ensures r.Valid? ==> r.payload.sourceUri == (if "Letterboxd URI" in row then Some(Trim(row["Letterboxd URI"])) else None)
    ensures r.Valid? ==> r.payload.yearHint == JsNumber(Cell(row, "Year"))
    ensures r.Valid? ==> r.payload.date == WatchDate(r.payload.yearHint, today, pick)
    ensures r.Valid? ==> IsValidDate(r.payload.date) && r.payload.date.year >= StartYear(r.payload.yearHint)
  {
    var title := if "Name" in row then Some(Trim(row["Name"])) else None;
    if title.None? || title.value == [] then Invalid(INVALID_TITLE, INVALID_TITLE_MESSAGE)
    else
      var yearHint := JsNumber(Cell(row, "Year"));
      Valid(MoviePayload(
        title.value,
        WatchDate(yearHint, today, pick),
        yearHint,
        if "Letterboxd URI" in row then Some(Trim(row["Letterboxd URI"])) else None))
  }

  /** A release year of 2005 puts the watch date in 2010 or later, and 2012 in 2013 or later. */
  lemma WatchYearAfterRelease(row: RawRow, today: nat, pick: nat, year: nat)
    requires "Name" in row && !IsBlank(row["Name"])
    requires year <= MAX_SAFE_INTEGER
    requires Cell(row, "Year") == Some(NatToString(year))
    ensures NormalizeMovieRow(row, today, pick).Valid?
    ensures NormalizeMovieRow(row, today, pick).payload.date.year >= Max(MIN_RANDOM_WATCH_YEAR, year + 1)
  {
    JsNumberRoundTrip(year);
  }

  /** The dedupe key of a row: its lower-cased trimmed title, when it has one. */
  function DedupeKey(title: string): string {
    ToLower(title)
  }

  // ------------------------------------------------------------- per-row step

  /** What the downstream create call did: answered without a truthy error
      (with `String(id)` when the answer carries a truthy id, None otherwise;
      an answer whose error is the empty text belongs here too), answered with
      a non-empty error message, or threw. */
  datatype CreateOutcome = Created(id: Option<string>) | ErrorResponse(message: string) | Threw(message: string)

  /** The two dedupe sets of a pass: titles seen earlier in this file, and
      titles known downstream. */
  datatype DedupeSets = DedupeSets(seenInJob: set<string>, remote: set<string>)

  datatype PassOptions = PassOptions(dryRun: bool, skipDuplicates: bool)

  /** One row of the `processJob` loop. A row that is not pending is left alone;
      a pending row is attempted once more and ends in success, failed or skipped. */
  function ProcessRow(row: ImportRow, sets: DedupeSets, opts: PassOptions, today: nat, now: int,
                      pick: nat, outcome: CreateOutcome): (res: (ImportRow, DedupeSets))
    ensures row.status != RowStatus.Pending ==> res == (row, sets)
    ensures row.status == RowStatus.Pending ==>
              && res.0.attemptCount == row.attemptCount + 1
              && res.0.status in {Success, RowStatus.Failed, Skipped}
              && res.0.id == row.id && res.0.rowNumber == row.rowNumber && res.0.rawPayload == row.rawPayload
    ensures sets.seenInJob <= res.1.seenInJob && sets.remote <= res.1.remote
  {
    if row.status != RowStatus.Pending then (row, sets)
    else
      var started := row.(status := RowStatus.Processing, attemptCount := row.attemptCount + 1, updatedAt := now);
      match NormalizeMovieRow(row.rawPayload, today, pick)
      case Invalid(code, message) =>
        (started.(status := RowStatus.Failed, errorCode := Some(code), errorMessage := Some(message)), sets)
      case Valid(payload) =>
        var normalized := started.(normalizedPayload := Some(payload));
        var key := DedupeKey(payload.title);
        if opts.skipDuplicates && key in sets.seenInJob then
          (normalized.(status := Skipped, errorCode := Some(DUPLICATE_IN_FILE), errorMessage := Some(DUPLICATE_IN_FILE_MESSAGE)), sets)
        else if opts.skipDuplicates && key in sets.remote then
          (normalized.(status := Skipped, errorCode := Some(DUPLICATE_REMOTE), errorMessage := Some(DUPLICATE_REMOTE_MESSAGE)), sets)
        else
          var seen := sets.(seenInJob := sets.seenInJob + {key});
          if opts.dryRun then
            (normalized.(status := Success, errorCode := None, errorMessage := None, targetRecordId := Some(DRY_RUN_TARGET)), seen)
          else
            match outcome
            case ErrorResponse(message) =>
              (normalized.(status := RowStatus.Failed, errorCode := Some(UPSERT_FAILED), errorMessage := Some(message)), seen)
            case Threw(message) =>
              (normalized.(status := RowStatus.Failed, errorCode := Some(UPSERT_EXCEPTION), errorMessage := Some(message)), seen)
            case Created(id) =>
              (normalized.(status := Success, errorCode := None, errorMessage := None,
                           targetRecordId := if id.Some? then id else normalized.targetRecordId),
               seen.(remote := seen.remote + {key}))
  }

  /** The dedupe key a pending row would be checked under, if its title is valid. */
  function RowKey(row: ImportRow): Option<string> {
    if "Name" in row.rawPayload && !IsBlank(row.rawPayload["Name"]) then Some(DedupeKey(Trim(row.rawPayload["Name"])))
    else None
  }

  /** A row's title is valid exactly when it has a key, and the normalised
      title lower-cases to that key. */
  lemma NormalizeKey(row: ImportRow, today: nat, pick: nat)
    ensures NormalizeMovieRow(row.rawPayload, today, pick).Valid? <==> RowKey(row).Some?
    ensures NormalizeMovieRow(row.rawPayload, today, pick).Valid? ==>
              DedupeKey(NormalizeMovieRow(row.rawPayload, today, pick).payload.title) == RowKey(row).value
  {
  }

  /** A pending row without a title fails with `INVALID_TITLE` and records no key. */
  lemma InvalidTitleFails(row: ImportRow, sets: DedupeSets, opts: PassOptions, today: nat, now: int,
                          pick: nat, outcome: CreateOutcome)
    requires row.status == RowStatus.Pending && RowKey(row).None?
    ensures var (r, s) := ProcessRow(row, sets, opts, today, now, pick, outcome);
            r.status == RowStatus.Failed && r.errorCode == Some(INVALID_TITLE) &&
            r.errorMessage == Some(INVALID_TITLE_MESSAGE) && s == sets
  {
    NormalizeKey(row, today, pick);
  }

  /** A title already seen in this file is skipped as `DUPLICATE_IN_FILE`. */
  lemma InFileDuplicateSkipped(row: ImportRow, sets: DedupeSets, opts: PassOptions, today: nat, now: int,
                               pick: nat, outcome: CreateOutcome)
    requires row.status == RowStatus.Pending && RowKey(row).Some? && opts.skipDuplicates
    requires RowKey(row).value in sets.seenInJob
    ensures var (r, s) := ProcessRow(row, sets, opts, today, now, pick, outcome);
            r.status == Skipped && r.errorCode == Some(DUPLICATE_IN_FILE) &&
            r.errorMessage == Some(DUPLICATE_IN_FILE_MESSAGE) && s == sets
  {
    NormalizeKey(row, today, pick);
  }

  /** A new title known downstream is skipped as `DUPLICATE_REMOTE`. */
  lemma RemoteDuplicateSkipped(row: ImportRow, sets: DedupeSets, opts: PassOptions, today: nat, now: int,
                               pick: nat, outcome: CreateOutcome)
    requires row.status == RowStatus.Pending && RowKey(row).Some? && opts.skipDuplicates
    requires RowKey(row).value !in sets.seenInJob && RowKey(row).value in sets.remote
    ensures var (r, s) := ProcessRow(row, sets, opts, today, now, pick, outcome);
            r.status == Skipped && r.errorCode == Some(DUPLICATE_REMOTE) &&
            r.errorMessage == Some(DUPLICATE_REMOTE_MESSAGE) && s == sets
  {
    NormalizeKey(row, today, pick);
  }

  /** A row that passes the dedupe checks records its key as seen and then
      succeeds as a dry run, fails with the downstream message, or succeeds
      and records its key as known downstream. */
  lemma AcceptedRowOutcome(row: ImportRow, sets: DedupeSets, opts: PassOptions, today: nat, now: int,
                           pick: nat, outcome: CreateOutcome)
    requires row.status == RowStatus.Pending && RowKey(row).Some?
    requires !opts.skipDuplicates || (RowKey(row).value !in sets.seenInJob && RowKey(row).value !in sets.remote)
    ensures var (r, s) := ProcessRow(row, sets, opts, today, now, pick, outcome);
      var key := RowKey(row).value;
      && s.seenInJob == sets.seenInJob + {key}
      && r.normalizedPayload.Some? && DedupeKey(r.normalizedPayload.value.title) == key
      && (opts.dryRun ==> r.status == Success && r.targetRecordId == Some(DRY_RUN_TARGET) && r.errorCode == None && s.remote == sets.remote)
      && (!opts.dryRun && outcome.ErrorResponse? ==>
            r.status == RowStatus.Failed && r.errorCode == Some(UPSERT_FAILED) && r.errorMessage == Some(outcome.message))
      && (!opts.dryRun && outcome.Threw? ==>
            r.status == RowStatus.Failed && r.errorCode == Some(UPSERT_EXCEPTION) && r.errorMessage == Some(outcome.message))
      && (!opts.dryRun && outcome.Created? ==>
            r.status == Success && r.errorCode == None && r.errorMessage == None && s.remote == sets.remote + {key}
            && (outcome.id.Some? ==> r.targetRecordId == outcome.id))
  {
    NormalizeKey(row, today, pick);
  }

  /** With duplicate skipping on, a row with a valid title leaves its key in one
      of the dedupe sets, and in the seen set unless the row was skipped. */
  lemma KeyRecorded(row: ImportRow, sets: DedupeSets, opts: PassOptions, today: nat, now: int,
                    pick: nat, outcome: CreateOutcome)
    requires row.status == RowStatus.Pending && RowKey(row).Some? && opts.skipDuplicates
    ensures var (r, s) := ProcessRow(row, sets, opts, today, now, pick, outcome);
            && RowKey(row).value in s.seenInJob + s.remote
            && (r.status != Skipped ==> RowKey(row).value in s.seenInJob)
  {
    var key := RowKey(row).value;
    if key in sets.seenInJob {
      InFileDuplicateSkipped(row, sets, opts, today, now, pick, outcome);
    } else if key in sets.remote {
      RemoteDuplicateSkipped(row, sets, opts, today, now, pick, outcome);
    } else {
      AcceptedRowOutcome(row, sets, opts, today, now, pick, outcome);
    }
  }

  // ---------------------------------------------------------------- the pass

  /** The first `n` rows after the sequential pass, and the dedupe sets after them.
      Row `k` draws `pick(k)` for its watch date and gets `create(k)` from the
      downstream service if it calls it. */
  function PassPrefix(rows: seq<ImportRow>, n: nat, start: DedupeSets, opts: PassOptions, today: nat, now: int,
                      pick: nat -> nat, create: nat -> CreateOutcome): (res: (seq<ImportRow>, DedupeSets))
    requires n <= |rows|
    ensures |res.0| == n
    decreases n
  {
    if n == 0 then ([], start)
    else
      var (done, sets) := PassPrefix(rows, n - 1, start, opts, today, now, pick, create);
      var (row, sets') := ProcessRow(rows[n - 1], sets, opts, today, now, pick(n - 1), create(n - 1));
      (done + [row], sets')
  }

  /** The whole pass. */
  function Pass(rows: seq<ImportRow>, start: DedupeSets, opts: PassOptions, today: nat, now: int,
                pick: nat -> nat, create: nat -> CreateOutcome): seq<ImportRow>
  {
    PassPrefix(rows, |rows|, start, opts, today, now, pick, create).0
  }

  /** The job's rows part-way through the pass: the first `n` rows stepped,
      the rest as stored; and the dedupe sets at that point. */
  function AfterPrefix(rows: seq<ImportRow>, n: nat, start: DedupeSets, opts: PassOptions, today: nat, now: int,
                       pick: nat -> nat, create: nat -> CreateOutcome): (res: (seq<ImportRow>, DedupeSets))
    requires n <= |rows|
    ensures |res.0| == |rows|
    ensures n == |rows| ==> res.0 == Pass(rows, start, opts, today, now, pick, create)
  {
    var p := PassPrefix(rows, n, start, opts, today, now, pick, create);
    assert rows[|rows|..] == [];
    (p.0 + rows[n..], p.1)
  }

  /** One more row of the pass replaces row `n` by its stepped version. */
  lemma AfterPrefixStep(rows: seq<ImportRow>, n: nat, start: DedupeSets, opts: PassOptions, today: nat, now: int,
                        pick: nat -> nat, create: nat -> CreateOutcome)
    requires n < |rows|
    ensures var a := AfterPrefix(rows, n, start, opts, today, now, pick, create);
            var step := ProcessRow(rows[n], a.1, opts, today, now, pick(n), create(n));
            && a.0[n] == rows[n]
            && AfterPrefix(rows, n + 1, start, opts, today, now, pick, create) == (a.0[n := step.0], step.1)
  {
    var a := AfterPrefix(rows, n, start, opts, today, now, pick, create);
    var step := ProcessRow(rows[n], a.1, opts, today, now, pick(n), create(n));
    var p := PassPrefix(rows, n, start, opts, today, now, pick, create);
    assert a.0 == p.0 + rows[n..];
    assert (p.0 + [step.0]) + rows[n + 1..] == a.0[n := step.0];
  }

  /** Row `k` of the pass is row `k` stepped with the dedupe sets left by the rows before it. */
  lemma {:induction false} PassAt(rows: seq<ImportRow>, n: nat, k: nat, start: DedupeSets, opts: PassOptions,
                                  today: nat, now: int, pick: nat -> nat, create: nat -> CreateOutcome)
    requires k < n <= |rows|
    ensures PassPrefix(rows, n, start, opts, today, now, pick, create).0[k] ==
            ProcessRow(rows[k], PassPrefix(rows, k, start, opts, today, now, pick, create).1, opts, today, now, pick(k), create(k)).0
    decreases n
  {
    if k < n - 1 {
      PassAt(rows, n - 1, k, start, opts, today, now, pick, create);
    }
  }

  /** The dedupe sets only grow during a pass. */
  lemma {:induction false} SetsGrow(rows: seq<ImportRow>, j: nat, k: nat, start: DedupeSets, opts: PassOptions,
                                    today: nat, now: int, pick: nat -> nat, create: nat -> CreateOutcome)
    requires j <= k <= |rows|
    ensures var a := PassPrefix(rows, j, start, opts, today, now, pick, create).1;
            var b := PassPrefix(rows, k, start, opts, today, now, pick, create).1;
            a.seenInJob <= b.seenInJob && a.remote <= b.remote
    decreases k
  {
    if j < k {
      SetsGrow(rows, j, k - 1, start, opts, today, now, pick, create);
    }
  }

  /** Only pending rows are touched: every other row comes out unchanged, and
      every pending row is attempted exactly once more and ends in success,
      failed or skipped, keeping its identity. */
  lemma PassTouchesOnlyPending(rows: seq<ImportRow>, start: DedupeSets, opts: PassOptions, today: nat, now: int,
                               pick: nat -> nat, create: nat -> CreateOutcome, k: nat)
    requires k < |rows|
    ensures var out := Pass(rows, start, opts, today, now, pick, create);
      && |out| == |rows|
      && (rows[k].status != RowStatus.Pending ==> out[k] == rows[k])
      && (rows[k].status == RowStatus.Pending ==>
            && out[k].attemptCount == rows[k].attemptCount + 1
            && out[k].status in {Success, RowStatus.Failed, Skipped}
            && out[k].id == rows[k].id && out[k].rowNumber == rows[k].rowNumber
            && out[k].rawPayload == rows[k].rawPayload)
  {
    PassAt(rows, |rows|, k, start, opts, today, now, pick, create);
  }

  /** A pass over rows none of which is pending changes nothing. */
  lemma PassWithoutPendingIsIdentity(rows: seq<ImportRow>, start: DedupeSets, opts: PassOptions, today: nat, now: int,
                                     pick: nat -> nat, create: nat -> CreateOutcome)
    requires forall k :: 0 <= k < |rows| ==> rows[k].status != RowStatus.Pending
    ensures Pass(rows, start, opts, today, now, pick, create) == rows
  {
    var out := Pass(rows, start, opts, today, now, pick, create);
    forall k | 0 <= k < |rows| ensures out[k] == rows[k] {
      PassTouchesOnlyPending(rows, start, opts, today, now, pick, create, k);
    }
  }

  /** After a pass no row is pending. */
  lemma PassLeavesNoPending(rows: seq<ImportRow>, start: DedupeSets, opts: PassOptions, today: nat, now: int,
                            pick: nat -> nat, create: nat -> CreateOutcome)
    ensures var out := Pass(rows, start, opts, today, now, pick, create);
            forall k :: 0 <= k < |out| ==> out[k].status != RowStatus.Pending
  {
    var out := Pass(rows, start, opts, today, now, pick, create);
    forall k | 0 <= k < |out| ensures out[k].status != RowStatus.Pending {
      PassTouchesOnlyPending(rows, start, opts, today, now, pick, create, k);
    }
  }

  /** With duplicate skipping on, of two pending rows with the same key the
      later one is skipped; it is an in-file duplicate unless the earlier one
      was itself skipped. So an earlier row that failed downstream still
      suppresses its repeats. */
  lemma DuplicateTitleSkipped(rows: seq<ImportRow>, start: DedupeSets, opts: PassOptions, today: nat, now: int,
                              pick: nat -> nat, create: nat -> CreateOutcome, j: nat, k: nat)
    requires j < k < |rows| && opts.skipDuplicates
    requires rows[j].status == RowStatus.Pending && rows[k].status == RowStatus.Pending
    requires RowKey(rows[j]).Some? && RowKey(rows[j]) == RowKey(rows[k])
    ensures var out := Pass(rows, start, opts, today, now, pick, create);
      && out[k].status == Skipped
      && (out[j].status != Skipped ==> out[k].errorCode == Some(DUPLICATE_IN_FILE))
  {
    var key := RowKey(rows[j]).value;
    KeyRecordedInPass(rows, j, start, opts, today, now, pick, create);
    SetsGrow(rows, j + 1, k, start, opts, today, now, pick, create);
    KeySkippedInPass(rows, k, key, start, opts, today, now, pick, create);
  }

  /** After pending row `j` with a key, the key is in the dedupe sets, and in
      the seen set unless row `j` was skipped. */
  lemma KeyRecordedInPass(rows: seq<ImportRow>, j: nat, start: DedupeSets, opts: PassOptions, today: nat, now: int,
                          pick: nat -> nat, create: nat -> CreateOutcome)
    requires j < |rows| && opts.skipDuplicates
    requires rows[j].status == RowStatus.Pending && RowKey(rows[j]).Some?
    ensures var sets := PassPrefix(rows, j + 1, start, opts, today, now, pick, create).1;
      && RowKey(rows[j]).value in sets.seenInJob + sets.remote
      && (Pass(rows, start, opts, today, now, pick, create)[j].status != Skipped ==> RowKey(rows[j]).value in sets.seenInJob)
  {
    var before := PassPrefix(rows, j, start, opts, today, now, pick, create).1;
    KeyRecorded(rows[j], before, opts, today, now, pick(j), create(j));
    PassAt(rows, |rows|, j, start, opts, today, now, pick, create);
  }

  /** Pending row `k` whose key is already in the dedupe sets is skipped, as
      an in-file duplicate when the key is in the seen set. */
  lemma KeySkippedInPass(rows: seq<ImportRow>, k: nat, key: string, start: DedupeSets, opts: PassOptions,
                         today: nat, now: int, pick: nat -> nat, create: nat -> CreateOutcome)
    requires k < |rows| && opts.skipDuplicates
    requires rows[k].status == RowStatus.Pending && RowKey(rows[k]) == Some(key)
    requires var sets := PassPrefix(rows, k, start, opts, today, now, pick, create).1;
      key in sets.seenInJob + sets.remote
    ensures var out := Pass(rows, start, opts, today, now, pick, create);
      && out[k].status == Skipped
      && (key in PassPrefix(rows, k, start, opts, today, now, pick, create).1.seenInJob ==>
            out[k].errorCode == Some(DUPLICATE_IN_FILE))
  {
    var atK := PassPrefix(rows, k, start, opts, today, now, pick, create).1;
    PassAt(rows, |rows|, k, start, opts, today, now, pick, create);
    if key in atK.seenInJob {
      InFileDuplicateSkipped(rows[k], atK, opts, today, now, pick(k), create(k));
    } else {
      RemoteDuplicateSkipped(rows[k], atK, opts, today, now, pick(k), create(k));
    }
  }

  /** A dry run never consults the downstream service: its result is the same
      whatever the service would have answered. */
  lemma {:induction false} DryRunIgnoresCreate(rows: seq<ImportRow>, n: nat, start: DedupeSets, opts: PassOptions,
                                               today: nat, now: int, pick: nat -> nat,
                                               create1: nat -> CreateOutcome, create2: nat -> CreateOutcome)
    requires n <= |rows| && opts.dryRun
    ensures PassPrefix(rows, n, start, opts, today, now, pick, create1) ==
            PassPrefix(rows, n, start, opts, today, now, pick, create2)
    decreases n
  {
    if n > 0 {
      DryRunIgnoresCreate(rows, n - 1, start, opts, today, now, pick, create1, create2);
      var sets := PassPrefix(rows, n - 1, start, opts, today, now, pick, create1).1;
      DryRunRowIgnoresOutcome(rows[n - 1], sets, opts, today, now, pick(n - 1), create1(n - 1), create2(n - 1));
    }
  }

  /** One row of a dry run does not depend on the downstream answer. */
  lemma DryRunRowIgnoresOutcome(row: ImportRow, sets: DedupeSets, opts: PassOptions, today: nat, now: int,
                                pick: nat, outcome1: CreateOutcome, outcome2: CreateOutcome)
    requires opts.dryRun
    ensures ProcessRow(row, sets, opts, today, now, pick, outcome1) == ProcessRow(row, sets, opts, today, now, pick, outcome2)
  {
  }

  // ------------------------------------------------------ counters and status

  /** `recalculateCounters`: the counters become the status counts of the rows;
      nothing else changes. */
  function RecalculateCounters(job: ImportJob): (r: ImportJob)
    ensures r == job.(processedRows := r.processedRows, successRows := r.successRows,
                      failedRows := r.failedRows, skippedRows := r.skippedRows)
    ensures r.successRows == CountStatus(job.rows, Success)
    ensures r.failedRows == CountStatus(job.rows, RowStatus.Failed)
    ensures r.skippedRows == CountStatus(job.rows, Skipped)
    ensures r.processedRows == r.successRows + r.failedRows + r.skippedRows <= |job.rows|
  {
    TerminalIsSumOfOutcomes(job.rows);
    job.(processedRows := CountTerminal(job.rows),
         successRows := CountStatus(job.rows, Success),
         failedRows := CountStatus(job.rows, RowStatus.Failed),
         skippedRows := CountStatus(job.rows, Skipped))
  }

  /** The terminal status from the counters. */
  function TerminalStatus(successRows: nat, failedRows: nat): (s: JobStatus)
    ensures s == Partial <==> failedRows > 0 && successRows > 0
    ensures s == JobStatus.Failed <==> failedRows > 0 && successRows == 0
    ensures s == Completed <==> failedRows == 0
  {
    if failedRows > 0 && successRows > 0 then Partial
    else if failedRows > 0 && successRows == 0 then JobStatus.Failed
    else Completed
  }

  /** The `finally` block of `processJob`: recompute the counters, stamp the
      completion time and set the terminal status. */
  function Finalise(job: ImportJob, now: int): (r: ImportJob)
    ensures r == job.(processedRows := r.processedRows, successRows := r.successRows,
                      failedRows := r.failedRows, skippedRows := r.skippedRows,
                      status := r.status, completedAt := Some(now), updatedAt := now)
    ensures r.processedRows == r.successRows + r.failedRows + r.skippedRows <= |r.rows|
    ensures r.successRows == CountStatus(r.rows, Success) && r.failedRows == CountStatus(r.rows, RowStatus.Failed)
    ensures r.skippedRows == CountStatus(r.rows, Skipped)
    ensures r.status == Partial <==>
              (exists k :: 0 <= k < |r.rows| && r.rows[k].status == RowStatus.Failed) &&
              (exists k :: 0 <= k < |r.rows| && r.rows[k].status == Success)
    ensures r.status == JobStatus.Failed <==>
              (exists k :: 0 <= k < |r.rows| && r.rows[k].status == RowStatus.Failed) &&
              (forall k :: 0 <= k < |r.rows| ==> r.rows[k].status != Success)
    ensures r.status == Completed <==> forall k :: 0 <= k < |r.rows| ==> r.rows[k].status != RowStatus.Failed
  {
    var counted := RecalculateCounters(job);
    CountPositiveIffExists(job.rows, Success);
    CountPositiveIffExists(job.rows, RowStatus.Failed);
    counted.(completedAt := Some(now), updatedAt := now,
             status := TerminalStatus(counted.successRows, counted.failedRows))
  }

  /** The claim step of `processJob`: status processing, first start time kept. */
  function StartRun(job: ImportJob, now: int): (r: ImportJob)
    ensures r == job.(status := JobStatus.Processing, startedAt := r.startedAt, updatedAt := now)
    ensures r.startedAt == (if job.startedAt.Some? then job.startedAt else Some(now))
  {
    job.(status := JobStatus.Processing,
         startedAt := if job.startedAt.Some? then job.startedAt else Some(now),
         updatedAt := now)
  }

  /** What one complete processing run does to a stored job. */
  function RunJob(job: ImportJob, opts: PassOptions, remote: set<string>, today: nat, now: int,
                  pick: nat -> nat, create: nat -> CreateOutcome): ImportJob
  {
    var started := StartRun(job, now);
    Finalise(started.(rows := Pass(started.rows, DedupeSets({}, remote), opts, today, now, pick, create)), now)
  }

  /** What the source promises of a finished run: every row that was not
      processing is now terminal, so the processed count covers them all, and
      the terminal status follows the counters. */
  lemma RunJobFinishes(job: ImportJob, opts: PassOptions, remote: set<string>, today: nat, now: int,
                       pick: nat -> nat, create: nat -> CreateOutcome)
    requires forall k :: 0 <= k < |job.rows| ==> job.rows[k].status != RowStatus.Processing
    ensures var r := RunJob(job, opts, remote, today, now, pick, create);
      && |r.rows| == |job.rows|
      && (forall k :: 0 <= k < |r.rows| ==> IsTerminal(r.rows[k].status))
      && r.processedRows == |r.rows|
      && r.status in {Completed, Partial, JobStatus.Failed}
  {
    var started := StartRun(job, now);
    var sets := DedupeSets({}, remote);
    var out := Pass(started.rows, sets, opts, today, now, pick, create);
    forall k | 0 <= k < |out| ensures IsTerminal(out[k].status) {
      PassTouchesOnlyPending(started.rows, sets, opts, today, now, pick, create, k);
    }
    AllTerminalCount(out);
    TerminalIsSumOfOutcomes(out);
  }

  /** A second run after a finished one attempts no row again: the rows stay
      as the first run left them. */
  lemma SecondRunTouchesNoRow(job: ImportJob, opts: PassOptions, remote: set<string>, today: nat, now: int,
                              pick: nat -> nat, create: nat -> CreateOutcome,
                              opts2: PassOptions, remote2: set<string>, today2: nat, now2: int,
                              pick2: nat -> nat, create2: nat -> CreateOutcome)
    ensures var first := RunJob(job, opts, remote, today, now, pick, create);
            RunJob(first, opts2, remote2, today2, now2, pick2, create2).rows == first.rows
  {
    var started := StartRun(job, now);
    PassLeavesNoPending(started.rows, DedupeSets({}, remote), opts, today, now, pick, create);
    var first := RunJob(job, opts, remote, today, now, pick, create);
    PassWithoutPendingIsIdentity(first.rows, DedupeSets({}, remote2), opts2, today2, now2, pick2, create2);
  }

  // ------------------------------------------------------------------ retry

  /** The retry reset of one row: a failed row becomes pending with its error cleared. */
  function ResetIfFailed(row: ImportRow, now: int): ImportRow {
    if row.status == RowStatus.Failed
    then row.(status := RowStatus.Pending, errorCode := None, errorMessage := None, updatedAt := now)
    else row
  }

  /** The retry loop of `retryFailedRows` over all rows. */
  function ResetFailedRows(rows: seq<ImportRow>, now: int): (r: seq<ImportRow>)
    ensures |r| == |rows|
    ensures forall k :: 0 <= k < |rows| ==> r[k] == ResetIfFailed(rows[k], now)
  {
    if rows == [] then [] else [ResetIfFailed(rows[0], now)] + ResetFailedRows(rows[1..], now)
  }

  /** After the reset no row is failed, the failed rows joined the pending
      ones, and the successful, skipped and processing counts are unchanged. */
  lemma {:induction false} ResetCounts(rows: seq<ImportRow>, now: int)
    ensures var r := ResetFailedRows(rows, now);
      && CountStatus(r, RowStatus.Failed) == 0
      && CountStatus(r, RowStatus.Pending) == CountStatus(rows, RowStatus.Pending) + CountStatus(rows, RowStatus.Failed)
      && CountStatus(r, Success) == CountStatus(rows, Success)
      && CountStatus(r, Skipped) == CountStatus(rows, Skipped)
      && CountStatus(r, RowStatus.Processing) == CountStatus(rows, RowStatus.Processing)
  {
    if rows != [] {
      ResetCounts(rows[1..], now);
      assert ResetFailedRows(rows, now)[1..] == ResetFailedRows(rows[1..], now);
    }
  }

  /** Retrying a job with no failed row leaves its rows as they are. */
  lemma {:induction false} ResetWithoutFailuresIsIdentity(rows: seq<ImportRow>, now: int)
    requires CountStatus(rows, RowStatus.Failed) == 0
    ensures ResetFailedRows(rows, now) == rows
  {
    if rows != [] {
      ResetWithoutFailuresIsIdentity(rows[1..], now);
      assert rows == [rows[0]] + rows[1..];
    }
  }

  // ------------------------------------------------------------- creating

  /** The queued job `createMoviesImport` builds from the parsed records. */
  function NewMoviesJob(parsed: seq<RawRow>, fileName: string, source: ImportSource, jobId: string,
                        rowId: nat -> string, now: int): (job: ImportJob)
    ensures job.id == jobId && job.importType == Movies && job.source == source && job.fileName == fileName
    ensures job.status == Queued && job.totalRows == |parsed| == |job.rows|
    ensures job.processedRows == 0 && job.successRows == 0 && job.failedRows == 0 && job.skippedRows == 0
    ensures job.createdAt == now && job.updatedAt == now && job.startedAt.None? && job.completedAt.None?
    ensures forall i :: 0 <= i < |parsed| ==>
              && job.rows[i].rowNumber == i + 2
              && job.rows[i].status == RowStatus.Pending
              && job.rows[i].attemptCount == 0
              && job.rows[i].rawPayload == parsed[i]
              && job.rows[i].id == rowId(i)
              && job.rows[i].normalizedPayload.None? && job.rows[i].errorCode.None?
              && job.rows[i].errorMessage.None? && job.rows[i].targetRecordId.None?
    ensures forall i, j :: 0 <= i < j < |job.rows| ==> job.rows[i].rowNumber != job.rows[j].rowNumber
  {
    var rows := seq(|parsed|, i requires 0 <= i < |parsed| =>
      ImportRow(rowId(i), i + 2, parsed[i], None, RowStatus.Pending, None, None, None, 0, now));
    ImportJob(jobId, Movies, source, Queued, fileName, |rows|, 0, 0, 0, 0, now, now, None, None, rows)
  }
}
