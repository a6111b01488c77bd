/**
 * The import side of src/lib/index.ts: the row decoder `parseCSVRow` and the
 * batch `validateAndParseCSV`.
 */
module CsvImport {
  import opened Wrappers
  import opened Text
  import opened Sessions
  import opened Utils
  import opened CsvHeaders
  import opened CsvTokens

  // ------------------------------------------------------------ row decoder

  /** `parseNumber`: `parseFloat` of the trimmed cell, `NaN` read as 0. */
  function ParseNumber(rt: Runtime, value: string): (n: int)
    ensures rt.parseNum(Trim(value)).Some? ==> n == rt.parseNum(Trim(value)).value
    ensures rt.parseNum(Trim(value)).None? ==> n == 0
  {
    rt.parseNum(Trim(value)).GetOr(0)
  }

  /** The single date-time cell of the current and the v2 formats, with "now"
      standing in when it is empty or not a date. */
  function IsoDate(rt: Runtime, dateTimeStr: string, now: Instant): (date: Instant)
    ensures dateTimeStr != [] && rt.parseDate(dateTimeStr).Some? ==> date == rt.parseDate(dateTimeStr).value
    ensures dateTimeStr == [] || rt.parseDate(dateTimeStr).None? ==> date == now
  {
    if dateTimeStr != [] then rt.parseDate(dateTimeStr).GetOr(now) else now
  }

  /** The legacy v1 fallback chain: ISO `date T time`, then `date time`, then
      the manual locale parser, then the date alone, then "now". */
  function LegacyDate(rt: Runtime, dateStr: string, timeStr: string, now: Instant): Instant {
    if dateStr != [] && timeStr != [] then
      var a := rt.parseDate(dateStr + "T" + timeStr);
      if a.Some? then a.value
      else
        var b := rt.parseDate(dateStr + " " + timeStr);
        if b.Some? then b.value
        else
          var c := LocaleDate(rt, dateStr, timeStr);
          if c.Some? then c.value
          else rt.parseDate(dateStr).GetOr(now)
    else now
  }

  /** The value of the first attempt that yields one, or `fallback`. */
  function FirstSome(attempts: seq<Option<Instant>>, fallback: Instant): (r: Instant)
    ensures (forall k :: 0 <= k < |attempts| ==> attempts[k].None?) ==> r == fallback
    ensures forall k :: 0 <= k < |attempts| && attempts[k].Some? && (forall j :: 0 <= j < k ==> attempts[j].None?)
              ==> r == attempts[k].value
  {
    if attempts == [] then fallback
    else if attempts[0].Some? then attempts[0].value
    else
      assert forall k :: 1 <= k < |attempts| ==> attempts[1..][k - 1] == attempts[k];
      FirstSome(attempts[1..], fallback)
  }

  lemma FirstOfFour(a: Option<Instant>, b: Option<Instant>, c: Option<Instant>, d: Option<Instant>, fallback: Instant)
    ensures FirstSome([a, b, c, d], fallback)
            == if a.Some? then a.value else if b.Some? then b.value else if c.Some? then c.value
               else d.GetOr(fallback)
  {
    assert [a, b, c, d][1..] == [b, c, d];
    assert [b, c, d][1..] == [c, d];
    assert [c, d][1..] == [d];
    assert [d][1..] == [];
    assert FirstSome([d], fallback) == d.GetOr(fallback);
    assert FirstSome([c, d], fallback) == if c.Some? then c.value else FirstSome([d], fallback);
    assert FirstSome([b, c, d], fallback) == if b.Some? then b.value else FirstSome([c, d], fallback);
  }

  /** Without both a date and a time cell the import time stands in; with
      both, the chain yields its first successful attempt, in the order ISO
      `date T time`, `date time`, the locale parser, the date alone. */
  lemma LegacyDateFirstSuccess(rt: Runtime, dateStr: string, timeStr: string, now: Instant)
    ensures dateStr == [] || timeStr == [] ==> LegacyDate(rt, dateStr, timeStr, now) == now
    ensures dateStr != [] && timeStr != [] ==>
      LegacyDate(rt, dateStr, timeStr, now)
      == FirstSome([rt.parseDate(dateStr + "T" + timeStr), rt.parseDate(dateStr + " " + timeStr),
                    LocaleDate(rt, dateStr, timeStr), rt.parseDate(dateStr)], now)
  {
    FirstOfFour(rt.parseDate(dateStr + "T" + timeStr), rt.parseDate(dateStr + " " + timeStr),
                LocaleDate(rt, dateStr, timeStr), rt.parseDate(dateStr), now);
  }

  /** The cell `row[k]`, or empty past the end. */
  function Cell(row: seq<string>, k: int): string {
    if 0 <= k < |row| then row[k] else ""
  }

  /** `{ error, session }` as returned by `parseCSVRow`. */
  datatype RowResult = RowResult(error: Option<string>, session: Option<BreathingSession>)

  function ColumnCountError(rowIndex: nat, columns: nat): string {
    "Row " + IntToString(rowIndex + 1) + ": Expected " + IntToString(|ExpectedHeaders|) + " columns, got "
      + IntToString(columns)
  }

  /** The exercise type named by a cell of the current format, `classical` otherwise. */
  function TypeOfCell(cell: string): ExerciseType {
    var typeStr := Lower(Trim(cell));
    if typeStr == "diminished" then Diminished
    else if typeStr == "mcp" then Mcp
    else Classical
  }

  function MakeSession(date: Instant, exerciseType: ExerciseType, cp1: int, mp1: int, mp2: int, mp3: int,
                       cp2: int, note: string, p1: int, p2: int, draw: Draw): BreathingSession {
    BreathingSession(
      controlPause1 := cp1, controlPause2 := cp2, date := date, exerciseType := exerciseType,
      id := GenerateUniqueId(date, draw), maxPause1 := mp1, maxPause2 := mp2, maxPause3 := mp3,
      note := note, pulse1 := p1, pulse2 := p2)
  }

  /**
   * `parseCSVRow`. `now` is `new Date()` and `draw` the random part of the id.
   * A 10-column row satisfies the legacy-v2 test, which comes before the
   * current-format one, so the last branch cannot be taken; it reads its
   * cells through `Cell` so that it carries no proof obligation.
   */
  function ParseCSVRow(rt: Runtime, row: seq<string>, rowIndex: nat, now: Instant, draw: Draw): (r: RowResult)
    ensures r.error.Some? <==> |row| != 10 && |row| != 11
    ensures r.error.Some? ==> r == RowResult(Some(ColumnCountError(rowIndex, |row|)), None)
    ensures r.error.None? ==> r.session.Some? && r.session.value.id == GenerateUniqueId(r.session.value.date, draw)
  {
    var isLegacyV1 := |row| == 11;
    var isLegacyV2 := |row| == 10;
    var isCurrentFormat := |row| == |ExpectedHeaders|;
    if !isLegacyV1 && !isLegacyV2 && !isCurrentFormat then
      RowResult(Some(ColumnCountError(rowIndex, |row|)), None)
    else
      var date := if isLegacyV1 then LegacyDate(rt, Trim(row[0]), Trim(row[1]), now)
                  else IsoDate(rt, Trim(row[0]), now);
      var session :=
        if isLegacyV1 then
          MakeSession(date, Classical, ParseNumber(rt, row[2]), ParseNumber(rt, row[3]), ParseNumber(rt, row[4]),
                      ParseNumber(rt, row[5]), ParseNumber(rt, row[6]), Trim(row[7]),
                      ParseNumber(rt, row[9]), ParseNumber(rt, row[10]), draw)
        else if isLegacyV2 then
          MakeSession(date, Classical, ParseNumber(rt, row[1]), ParseNumber(rt, row[2]), ParseNumber(rt, row[3]),
                      ParseNumber(rt, row[4]), ParseNumber(rt, row[5]), Trim(row[6]),
                      ParseNumber(rt, row[8]), ParseNumber(rt, row[9]), draw)
        else
          MakeSession(date, TypeOfCell(Cell(row, 1)), ParseNumber(rt, Cell(row, 2)), ParseNumber(rt, Cell(row, 3)),
                      ParseNumber(rt, Cell(row, 4)), ParseNumber(rt, Cell(row, 5)), ParseNumber(rt, Cell(row, 6)),
                      Trim(Cell(row, 7)), ParseNumber(rt, Cell(row, 8)), ParseNumber(rt, Cell(row, 9)), draw);
      RowResult(None, Some(session))
  }

  /** A 10-column row, current format included, is read by the legacy-v2
      layout: each field comes from its column in `LegacyV2Headers`, and the
      type stays `classical` because that layout has no type column. */
  lemma TenColumnsReadAsV2(rt: Runtime, row: seq<string>, rowIndex: nat, now: Instant, draw: Draw)
    requires |row| == 10
    ensures var s := ParseCSVRow(rt, row, rowIndex, now, draw).session.value;
      && s.date == IsoDate(rt, Trim(row[0]), now)
      && s.exerciseType == Classical
      && s.controlPause1 == ParseNumber(rt, row[1])
      && s.maxPause1 == ParseNumber(rt, row[2])
      && s.maxPause2 == ParseNumber(rt, row[3])
      && s.maxPause3 == ParseNumber(rt, row[4])
      && s.controlPause2 == ParseNumber(rt, row[5])
      && s.note == Trim(row[6])
      && s.pulse1 == ParseNumber(rt, row[8])
      && s.pulse2 == ParseNumber(rt, row[9])
  {
  }

  /** An 11-column row is read by the legacy-v1 layout (`LegacyV1Headers`):
      the date from the `Date` and `Time` columns, the personal best at
      column 8 ignored. */
  lemma ElevenColumnsReadAsV1(rt: Runtime, row: seq<string>, rowIndex: nat, now: Instant, draw: Draw)
    requires |row| == 11
    ensures var s := ParseCSVRow(rt, row, rowIndex, now, draw).session.value;
      && s.date == LegacyDate(rt, Trim(row[0]), Trim(row[1]), now)
      && s.exerciseType == Classical
      && s.controlPause1 == ParseNumber(rt, row[2])
      && s.maxPause1 == ParseNumber(rt, row[3])
      && s.maxPause2 == ParseNumber(rt, row[4])
      && s.maxPause3 == ParseNumber(rt, row[5])
      && s.controlPause2 == ParseNumber(rt, row[6])
      && s.note == Trim(row[7])
      && s.pulse1 == ParseNumber(rt, row[9])
      && s.pulse2 == ParseNumber(rt, row[10])
  {
  }

  /** The cell contents of a row do not affect whether it is rejected. */
  lemma RowErrorDependsOnlyOnWidth(rt: Runtime, a: seq<string>, b: seq<string>, rowIndex: nat, now: Instant, draw: Draw)
    requires |a| == |b|
    ensures ParseCSVRow(rt, a, rowIndex, now, draw).error == ParseCSVRow(rt, b, rowIndex, now, draw).error
  {
  }

  // ------------------------------------------------------------------ batch

  /** `CSVValidationResult`. */
  datatype ValidationResult = ValidationResult(errors: seq<string>, isValid: bool, sessions: seq<BreathingSession>,
                                               skippedRows: nat)

  /** The results of `parseCSVRow` on the data rows `1 .. n - 1`, in row
      order. Row `i` reads "now" from `clock(i)` and its id suffix from `draws(i)`. */
  function RowResults(rt: Runtime, rows: Table, n: nat, clock: nat -> Instant, draws: nat -> Draw)
    : (results: seq<RowResult>)
    requires 1 <= n <= |rows|
    ensures |results| == n - 1
  {
    seq(n - 1, k requires 0 <= k < n - 1 => ParseCSVRow(rt, rows[k + 1], k + 1, clock(k + 1), draws(k + 1)))
  }

  /** Result `k` is that of row `k + 1`. */
  lemma RowResultsAt(rt: Runtime, rows: Table, n: nat, k: nat, clock: nat -> Instant, draws: nat -> Draw)
    requires 1 <= n <= |rows| && k < n - 1
    ensures RowResults(rt, rows, n, clock, draws)[k] == ParseCSVRow(rt, rows[k + 1], k + 1, clock(k + 1), draws(k + 1))
  {
  }

  /** Decoding one more row appends its result. */
  lemma RowResultsSnoc(rt: Runtime, rows: Table, n: nat, clock: nat -> Instant, draws: nat -> Draw)
    requires 1 <= n < |rows|
    ensures RowResults(rt, rows, n + 1, clock, draws)
            == RowResults(rt, rows, n, clock, draws) + [ParseCSVRow(rt, rows[n], n, clock(n), draws(n))]
  {
    var longer := RowResults(rt, rows, n + 1, clock, draws);
    var shorter := RowResults(rt, rows, n, clock, draws);
    RowResultsAt(rt, rows, n + 1, n - 1, clock, draws);
    forall k | 0 <= k < n - 1 ensures longer[k] == shorter[k] {
      RowResultsAt(rt, rows, n + 1, k, clock, draws);
      RowResultsAt(rt, rows, n, k, clock, draws);
    }
    SnocOfElements(longer, shorter, ParseCSVRow(rt, rows[n], n, clock(n), draws(n)));
  }

  /** A sequence one longer than `shorter`, agreeing with it and ending in `x`, is `shorter + [x]`. */
  lemma SnocOfElements<T>(longer: seq<T>, shorter: seq<T>, x: T)
    requires |longer| == |shorter| + 1 && longer[|shorter|] == x
    requires forall k :: 0 <= k < |shorter| ==> longer[k] == shorter[k]
    ensures longer == shorter + [x]
  {
  }

  /** Every row result carries an error or a session. */
  predicate Decided(results: seq<RowResult>) {
    forall k :: 0 <= k < |results| ==> results[k].error.Some? || results[k].session.Some?
  }

  lemma RowResultsDecided(rt: Runtime, rows: Table, n: nat, clock: nat -> Instant, draws: nat -> Draw)
    requires 1 <= n <= |rows|
    ensures Decided(RowResults(rt, rows, n, clock, draws))
  {
    forall k | 0 <= k < n - 1 ensures RowResults(rt, rows, n, clock, draws)[k].error.Some?
                                      || RowResults(rt, rows, n, clock, draws)[k].session.Some? {
      RowResultsAt(rt, rows, n, k, clock, draws);
    }
  }

  /** The errors, sessions and skip count the loop of `validateAndParseCSV` accumulates. */
  datatype Tally = Tally(errors: seq<string>, sessions: seq<BreathingSession>, skipped: nat)

  function Count(results: seq<RowResult>): Tally {
    if results == [] then Tally([], [], 0)
    else
      var t := Count(results[..|results| - 1]);
      var r := results[|results| - 1];
      if r.error.Some? then Tally(t.errors + [r.error.value], t.sessions, t.skipped + 1)
      else if r.session.Some? then Tally(t.errors, t.sessions + [r.session.value], t.skipped)
      else t
  }

  lemma CountSnoc(results: seq<RowResult>, r: RowResult)
    ensures var t := Count(results);
      Count(results + [r])
      == if r.error.Some? then Tally(t.errors + [r.error.value], t.sessions, t.skipped + 1)
         else if r.session.Some? then Tally(t.errors, t.sessions + [r.session.value], t.skipped)
         else t
  {
    assert (results + [r])[..|results|] == results;
  }

  function HeaderErrors(headers: seq<string>): seq<string> {
    ["CSV headers do not match expected format",
     "Expected: " + Join(ExpectedHeaders, ", "),
     "Found: " + Join(headers, ", ")]
  }

  /** What `validateAndParseCSV` returns. */
  function ValidateAndParse(rt: Runtime, csvText: string, clock: nat -> Instant, draws: nat -> Draw): ValidationResult {
    var rows := Tokenize(csvText);
    if |rows| == 0 then ValidationResult(["CSV file is empty"], false, [], 0)
    else if !ValidateCSVHeaders(rows[0]) then ValidationResult(HeaderErrors(rows[0]), false, [], 0)
    else
      var t := Count(RowResults(rt, rows, |rows|, clock, draws));
      ValidationResult(t.errors, |t.sessions| > 0 || |rows| == 1, t.sessions, t.skipped)
  }

  /** `validateAndParseCSV`. */
  method ValidateAndParseCSV(rt: Runtime, csvText: string, clock: nat -> Instant, draws: nat -> Draw)
    returns (result: ValidationResult)
    ensures result == ValidateAndParse(rt, csvText, clock, draws)
  {
    var rows := ParseCSV(csvText);
    if |rows| == 0 {
      return ValidationResult(["CSV file is empty"], false, [], 0);
    }
    var headers := rows[0];
    if !ValidateCSVHeaders(headers) {
      return ValidationResult(HeaderErrors(headers), false, [], 0);
    }
    var errors: seq<string> := [];
    var sessions: seq<BreathingSession> := [];
    var skippedRows := 0;
    var i := 1;
    while i < |rows|
      invariant 1 <= i <= |rows|
      invariant Tally(errors, sessions, skippedRows) == Count(RowResults(rt, rows, i, clock, draws))
    {
      var r := ParseCSVRow(rt, rows[i], i, clock(i), draws(i));
      CountSnoc(RowResults(rt, rows, i, clock, draws), r);
      RowResultsSnoc(rt, rows, i, clock, draws);
      if r.error.Some? {
        errors := errors + [r.error.value];
        skippedRows := skippedRows + 1;
      } else if r.session.Some? {
        sessions := sessions + [r.session.value];
      }
      i := i + 1;
    }
    var isValid := |sessions| > 0 || |rows| == 1;
    return ValidationResult(errors, isValid, sessions, skippedRows);
  }

  /** Every decided row ends up either as an error or as a session, never both. */
  lemma {:induction false} CountTotals(results: seq<RowResult>)
    requires Decided(results)
    ensures var t := Count(results);
      t.skipped == |t.errors| && |t.sessions| + t.skipped == |results|
  {
    if results != [] {
      var init := results[..|results| - 1];
      assert forall k :: 0 <= k < |init| ==> init[k] == results[k];
      CountTotals(init);
    }
  }

  /** The sessions of the results, first to last: an independent,
      head-first reading of what the loop collects. */
  function SessionsOf(results: seq<RowResult>): seq<BreathingSession> {
    if results == [] then []
    else (if results[0].error.None? && results[0].session.Some? then [results[0].session.value] else [])
         + SessionsOf(results[1..])
  }

  /** The error messages of the results, first to last. */
  function ErrorsOf(results: seq<RowResult>): seq<string> {
    if results == [] then []
    else (if results[0].error.Some? then [results[0].error.value] else []) + ErrorsOf(results[1..])
  }

  lemma {:induction false} OfSnoc(results: seq<RowResult>, r: RowResult)
    ensures SessionsOf(results + [r])
            == SessionsOf(results) + (if r.error.None? && r.session.Some? then [r.session.value] else [])
    ensures ErrorsOf(results + [r]) == ErrorsOf(results) + (if r.error.Some? then [r.error.value] else [])
  {
    if results == [] {
      assert results + [r] == [r];
    } else {
      assert (results + [r])[1..] == results[1..] + [r];
      OfSnoc(results[1..], r);
    }
  }

  /** Errors and sessions keep the order of the results they come from. */
  lemma {:induction false} CountInOrder(results: seq<RowResult>)
    ensures Count(results).sessions == SessionsOf(results)
    ensures Count(results).errors == ErrorsOf(results)
  {
    if results != [] {
      var init := results[..|results| - 1];
      CountInOrder(init);
      OfSnoc(init, results[|results| - 1]);
      assert init + [results[|results| - 1]] == results;
    }
  }

  /** The sessions decoded from the rows `i ..` that have 10 or 11 columns, in row order. */
  function SessionsFrom(rt: Runtime, rows: Table, i: nat, clock: nat -> Instant, draws: nat -> Draw)
    : seq<BreathingSession>
    requires 1 <= i <= |rows|
    decreases |rows| - i
  {
    if i == |rows| then []
    else (if |rows[i]| == 10 || |rows[i]| == 11
          then [ParseCSVRow(rt, rows[i], i, clock(i), draws(i)).session.value] else [])
         + SessionsFrom(rt, rows, i + 1, clock, draws)
  }

  /** The column-count messages of the rows `i ..` that have neither 10 nor 11 columns, in row order. */
  function ErrorsFrom(rows: Table, i: nat): seq<string>
    requires 1 <= i <= |rows|
    decreases |rows| - i
  {
    if i == |rows| then []
    else (if |rows[i]| != 10 && |rows[i]| != 11 then [ColumnCountError(i, |rows[i]|)] else [])
         + ErrorsFrom(rows, i + 1)
  }

  /** Read head first, the results of the data rows from row `j + 1` on are
      those rows' sessions and errors. */
  lemma {:induction false} SuffixInOrder(rt: Runtime, rows: Table, results: seq<RowResult>, j: nat,
                                         rest: seq<RowResult>, clock: nat -> Instant, draws: nat -> Draw)
    requires 1 <= |rows| && results == RowResults(rt, rows, |rows|, clock, draws)
    requires j <= |results| && rest == results[j..]
    ensures SessionsOf(rest) == SessionsFrom(rt, rows, j + 1, clock, draws)
    ensures ErrorsOf(rest) == ErrorsFrom(rows, j + 1)
    decreases |results| - j
  {
    if j < |results| {
      SuffixInOrder(rt, rows, results, j + 1, rest[1..], clock, draws);
      RowResultsAt(rt, rows, |rows|, j, clock, draws);
    } else {
      assert rest == [];
    }
  }

  /** The loop's sessions over all data rows keep row order. */
  lemma SessionsInOrder(rt: Runtime, rows: Table, results: seq<RowResult>, clock: nat -> Instant, draws: nat -> Draw)
    requires 1 <= |rows| && results == RowResults(rt, rows, |rows|, clock, draws)
    ensures Count(results).sessions == SessionsFrom(rt, rows, 1, clock, draws)
  {
    assert results[0..] == results;
    SuffixInOrder(rt, rows, results, 0, results, clock, draws);
    CountInOrder(results);
  }

  /** The loop's errors over all data rows keep row order. */
  lemma ErrorsInOrder(rt: Runtime, rows: Table, results: seq<RowResult>, clock: nat -> Instant, draws: nat -> Draw)
    requires 1 <= |rows| && results == RowResults(rt, rows, |rows|, clock, draws)
    ensures Count(results).errors == ErrorsFrom(rows, 1)
  {
    assert results[0..] == results;
    SuffixInOrder(rt, rows, results, 0, results, clock, draws);
    CountInOrder(results);
  }

  /** Empty or white-space-only input is reported as an empty file. */
  lemma EmptyFile(rt: Runtime, csvText: string, clock: nat -> Instant, draws: nat -> Draw)
    requires forall i :: 0 <= i < |csvText| ==> IsSpace(csvText[i])
    ensures ValidateAndParse(rt, csvText, clock, draws) == ValidationResult(["CSV file is empty"], false, [], 0)
  {
    TokenizeBlank(csvText);
  }

  /** A header row that matches none of the three formats gives exactly three
      errors and nothing else. */
  lemma HeaderMismatch(rt: Runtime, csvText: string, clock: nat -> Instant, draws: nat -> Draw)
    requires var rows := Tokenize(csvText); |rows| > 0 && !ValidateCSVHeaders(rows[0])
    ensures var r := ValidateAndParse(rt, csvText, clock, draws);
      |r.errors| == 3 && r.sessions == [] && !r.isValid && r.skippedRows == 0
  {
  }

  /** With accepted headers, every data row is counted once, and the result is
      valid exactly when some session was read or there are no data rows. */
  lemma BatchAccounting(rt: Runtime, csvText: string, clock: nat -> Instant, draws: nat -> Draw)
    requires var rows := Tokenize(csvText); |rows| > 0 && ValidateCSVHeaders(rows[0])
    ensures var rows := Tokenize(csvText);
      var r := ValidateAndParse(rt, csvText, clock, draws);
      && r.skippedRows == |r.errors|
      && |r.sessions| + r.skippedRows == |rows| - 1
      && (r.isValid <==> |r.sessions| > 0 || |rows| == 1)
  {
    var rows := Tokenize(csvText);
    RowResultsDecided(rt, rows, |rows|, clock, draws);
    CountTotals(RowResults(rt, rows, |rows|, clock, draws));
  }

  /** With accepted headers, the sessions are those of the rows with 10 or
      11 columns and the errors those of the other rows, each in row order. */
  lemma RowsInOrder(rt: Runtime, csvText: string, clock: nat -> Instant, draws: nat -> Draw)
    requires var rows := Tokenize(csvText); |rows| > 0 && ValidateCSVHeaders(rows[0])
    ensures var rows := Tokenize(csvText);
      var r := ValidateAndParse(rt, csvText, clock, draws);
      && r.sessions == SessionsFrom(rt, rows, 1, clock, draws)
      && r.errors == ErrorsFrom(rows, 1)
  {
    var rows := Tokenize(csvText);
    SessionsInOrder(rt, rows, RowResults(rt, rows, |rows|, clock, draws), clock, draws);
    ErrorsInOrder(rt, rows, RowResults(rt, rows, |rows|, clock, draws), clock, draws);
  }

  /** When every result is a session, the loop keeps them all, in order, with no error. */
  lemma {:induction false} CountAllSessions(results: seq<RowResult>)
    requires forall k :: 0 <= k < |results| ==> results[k].error.None? && results[k].session.Some?
    ensures var t := Count(results);
      && t.errors == [] && t.skipped == 0 && |t.sessions| == |results|
      && forall k :: 0 <= k < |results| ==> t.sessions[k] == results[k].session.value
  {
    if results != [] {
      var init := results[..|results| - 1];
      assert forall k :: 0 <= k < |init| ==> init[k] == results[k];
      CountAllSessions(init);
    }
  }

  /** When every data row has a valid width, nothing is skipped and session
      `k` is the decoding of row `k + 1`. */
  lemma WideRowsInOrder(rt: Runtime, csvText: string, clock: nat -> Instant, draws: nat -> Draw)
    requires var rows := Tokenize(csvText); |rows| > 0 && ValidateCSVHeaders(rows[0])
    requires var rows := Tokenize(csvText); forall i :: 1 <= i < |rows| ==> |rows[i]| == 10 || |rows[i]| == 11
    ensures var rows := Tokenize(csvText);
      var r := ValidateAndParse(rt, csvText, clock, draws);
      && r.errors == [] && r.skippedRows == 0 && |r.sessions| == |rows| - 1
      && forall k :: 0 <= k < |rows| - 1 ==>
           r.sessions[k] == ParseCSVRow(rt, rows[k + 1], k + 1, clock(k + 1), draws(k + 1)).session.value
  {
    var rows := Tokenize(csvText);
    var results := RowResults(rt, rows, |rows|, clock, draws);
    forall k | 0 <= k < |results|
      ensures results[k] == ParseCSVRow(rt, rows[k + 1], k + 1, clock(k + 1), draws(k + 1))
    {
      RowResultsAt(rt, rows, |rows|, k, clock, draws);
    }
    CountAllSessions(results);
  }
}
