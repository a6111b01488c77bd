/**
 * What importing an export of src/lib/index.ts gives back.
 */
module CsvRoundTrip {
  import opened Wrappers
  import opened Text
  import opened Sessions
  import opened Utils
  import opened CsvHeaders
  import opened CsvTokens
  import opened CsvExport
  import opened CsvImport

  // ------------------------------------------------------ export then import

  /**
   * What a session becomes when its export line is imported again. The line
   * has 10 cells, so the legacy-v2 layout reads it one column off: the type
   * cell lands in `controlPause1` and reads as 0, each of the next five
   * numbers moves one field along, `controlPause2` becomes the note, the old
   * note is taken for the personal best and dropped; the date and both pulses
   * survive, the type becomes `classical` and a new id is drawn.
   */
  function Reimported(rt: Runtime, s: BreathingSession, draw: Draw): BreathingSession {
    BreathingSession(
      controlPause1 := 0, controlPause2 := s.maxPause3, date := s.date, exerciseType := Classical,
      id := GenerateUniqueId(s.date, draw), maxPause1 := s.controlPause1, maxPause2 := s.maxPause1,
      maxPause3 := s.maxPause2, note := rt.showNum(s.controlPause2), pulse1 := s.pulse1, pulse2 := s.pulse2)
  }

  lemma ExportLineTokens(rt: Runtime, s: BreathingSession)
    requires Faithful(rt) && '\n' !in s.note
    ensures RowOf(ExportLine(rt, s)) == Some(Cells(rt, s))
  {
    ExportLineShape(rt, s);
    TrimOfTrimmed(ExportLine(rt, s));
    ScanLineOfEscaped(Cells(rt, s));
  }

  lemma HeaderLineTokens()
    ensures RowOf(HeaderLine()) == Some(ExpectedHeaders)
  {
    HeaderLineShape();
    TrimOfTrimmed(HeaderLine());
    ScanLineOfEscaped(ExpectedHeaders);
  }

  /** The cells of each session, in order. */
  function CellRows(rt: Runtime, sessions: seq<BreathingSession>): (rows: Table)
    ensures |rows| == |sessions|
  {
    if sessions == [] then [] else CellRows(rt, sessions[..|sessions| - 1]) + [Cells(rt, sessions[|sessions| - 1])]
  }

  lemma {:induction false} CellRowsAt(rt: Runtime, sessions: seq<BreathingSession>)
    ensures forall k :: 0 <= k < |sessions| ==> CellRows(rt, sessions)[k] == Cells(rt, sessions[k])
  {
    if sessions != [] {
      var init := sessions[..|sessions| - 1];
      CellRowsAt(rt, init);
      assert forall k :: 0 <= k < |init| ==> init[k] == sessions[k];
    }
  }

  lemma ExportLinesTokens(rt: Runtime, sessions: seq<BreathingSession>)
    requires Faithful(rt)
    requires forall k :: 0 <= k < |sessions| ==> '\n' !in sessions[k].note
    ensures RowsOf(ExportLines(rt, sessions)) == CellRows(rt, sessions)
  {
    var lines, rows := ExportLines(rt, sessions), CellRows(rt, sessions);
    ExportLinesAt(rt, sessions);
    CellRowsAt(rt, sessions);
    forall k | 0 <= k < |lines| ensures RowOf(lines[k]) == Some(rows[k]) {
      ExportLineTokens(rt, sessions[k]);
    }
    RowsOfEach(lines, rows);
  }

  /** The exported text tokenizes to the header row and the cells of each session. */
  lemma TokenizeExport(rt: Runtime, sessions: seq<BreathingSession>)
    requires Faithful(rt)
    requires forall k :: 0 <= k < |sessions| ==> '\n' !in sessions[k].note
    ensures Tokenize(ExportText(rt, sessions)) == [ExpectedHeaders] + CellRows(rt, sessions)
  {
    ExportTextTrimmed(rt, sessions);
    ExportTextLines(rt, sessions);
    RowsOfAppend([HeaderLine()], ExportLines(rt, sessions));
    HeaderRows();
    ExportLinesTokens(rt, sessions);
  }

  lemma HeaderRows()
    ensures RowsOf([HeaderLine()]) == [ExpectedHeaders]
  {
    HeaderLineTokens();
    RowsOfSnoc([HeaderLine()], [], ExpectedHeaders);
  }

  // ------------------------------------------------------------ cell reads

  lemma DateCellReads(rt: Runtime, t: Instant, now: Instant)
    requires Faithful(rt)
    ensures IsoDate(rt, Trim(rt.toISO(t)), now) == t
  {
    PlainIso(rt, t);
    TrimOfTrimmed(rt.toISO(t));
  }

  lemma TypeCellReads(rt: Runtime, t: ExerciseType)
    requires Faithful(rt)
    ensures ParseNumber(rt, TypeName(t)) == 0
  {
    PlainTypeName(t);
    TrimOfTrimmed(TypeName(t));
  }

  lemma NumberCellReads(rt: Runtime, n: int)
    requires Faithful(rt)
    ensures Trim(rt.showNum(n)) == rt.showNum(n)
    ensures ParseNumber(rt, rt.showNum(n)) == n
  {
    PlainNumber(rt, n);
    TrimOfTrimmed(rt.showNum(n));
  }

  /** How the cells of `s` read back: the date cell as the date, the type
      cell as no number, each number cell as its number. */
  predicate CellsReadBack(rt: Runtime, s: BreathingSession, now: Instant) {
    && IsoDate(rt, Trim(rt.toISO(s.date)), now) == s.date
    && ParseNumber(rt, TypeName(s.exerciseType)) == 0
    && ParseNumber(rt, rt.showNum(s.controlPause1)) == s.controlPause1
    && ParseNumber(rt, rt.showNum(s.maxPause1)) == s.maxPause1
    && ParseNumber(rt, rt.showNum(s.maxPause2)) == s.maxPause2
    && ParseNumber(rt, rt.showNum(s.maxPause3)) == s.maxPause3
    && Trim(rt.showNum(s.controlPause2)) == rt.showNum(s.controlPause2)
    && ParseNumber(rt, rt.showNum(s.pulse1)) == s.pulse1
    && ParseNumber(rt, rt.showNum(s.pulse2)) == s.pulse2
  }

  lemma CellsRead(rt: Runtime, s: BreathingSession, now: Instant)
    requires Faithful(rt)
    ensures CellsReadBack(rt, s, now)
  {
    DateCellReads(rt, s.date, now);
    TypeCellReads(rt, s.exerciseType);
    NumberCellReads(rt, s.controlPause1);
    NumberCellReads(rt, s.maxPause1);
    NumberCellReads(rt, s.maxPause2);
    NumberCellReads(rt, s.maxPause3);
    NumberCellReads(rt, s.controlPause2);
    NumberCellReads(rt, s.pulse1);
    NumberCellReads(rt, s.pulse2);
  }

  /** One exported row, decoded. */
  lemma DecodeCells(rt: Runtime, s: BreathingSession, rowIndex: nat, now: Instant, draw: Draw)
    requires Faithful(rt)
    ensures ParseCSVRow(rt, Cells(rt, s), rowIndex, now, draw) == RowResult(None, Some(Reimported(rt, s, draw)))
  {
    CellsRead(rt, s, now);
    DecodeReadable(rt, s, rowIndex, now, draw);
  }

  lemma DecodeReadable(rt: Runtime, s: BreathingSession, rowIndex: nat, now: Instant, draw: Draw)
    requires CellsReadBack(rt, s, now)
    ensures ParseCSVRow(rt, Cells(rt, s), rowIndex, now, draw) == RowResult(None, Some(Reimported(rt, s, draw)))
  {
    CellsAt(rt, s);
    ReadBack(rt, Cells(rt, s), s, rowIndex, now, draw);
  }

  /** A 10-column row whose cells read as the fields of `s` shifted as the
      legacy-v2 layout shifts them decodes to `Reimported(rt, s, draw)`. */
  lemma ReadBack(rt: Runtime, row: seq<string>, s: BreathingSession, rowIndex: nat, now: Instant, draw: Draw)
    requires |row| == 10
    requires IsoDate(rt, Trim(row[0]), now) == s.date
    requires ParseNumber(rt, row[1]) == 0
    requires ParseNumber(rt, row[2]) == s.controlPause1
    requires ParseNumber(rt, row[3]) == s.maxPause1
    requires ParseNumber(rt, row[4]) == s.maxPause2
    requires ParseNumber(rt, row[5]) == s.maxPause3
    requires Trim(row[6]) == rt.showNum(s.controlPause2)
    requires ParseNumber(rt, row[8]) == s.pulse1
    requires ParseNumber(rt, row[9]) == s.pulse2
    ensures ParseCSVRow(rt, row, rowIndex, now, draw) == RowResult(None, Some(Reimported(rt, s, draw)))
  {
    TenColumnsReadAsV2(rt, row, rowIndex, now, draw);
  }

  /** Row `k + 1` of an export holds the cells of session `k`, and it decodes
      to `Reimported`. */
  lemma ExportedRowDecodes(rt: Runtime, sessions: seq<BreathingSession>, k: nat, clock: nat -> Instant,
                           draws: nat -> Draw)
    requires Faithful(rt) && k < |sessions|
    ensures var rows := [ExpectedHeaders] + CellRows(rt, sessions);
      ParseCSVRow(rt, rows[k + 1], k + 1, clock(k + 1), draws(k + 1))
        == RowResult(None, Some(Reimported(rt, sessions[k], draws(k + 1))))
  {
    DataRow(rt, sessions, k);
    DecodeCells(rt, sessions[k], k + 1, clock(k + 1), draws(k + 1));
  }

  /** Row `k + 1` of an export holds the cells of session `k`. */
  lemma DataRow(rt: Runtime, sessions: seq<BreathingSession>, k: nat)
    requires k < |sessions|
    ensures ([ExpectedHeaders] + CellRows(rt, sessions))[k + 1] == Cells(rt, sessions[k])
  {
    CellRowsAt(rt, sessions);
  }

  /** Every data row of an export has ten cells. */
  lemma DataRowsWide(rt: Runtime, sessions: seq<BreathingSession>)
    ensures var rows := [ExpectedHeaders] + CellRows(rt, sessions);
      forall i :: 1 <= i < |rows| ==> |rows[i]| == 10 || |rows[i]| == 11
  {
    var rows := [ExpectedHeaders] + CellRows(rt, sessions);
    forall i | 1 <= i < |rows| ensures |rows[i]| == 10 {
      DataRow(rt, sessions, i - 1);
    }
  }

  /**
   * Exporting sessions and importing the text again: the file is accepted,
   * no row is skipped, one session comes back per session in the same order,
   * and each is `Reimported` from its original. Notes must not contain a line
   * break, since the tokenizer splits lines before it looks at quotes.
   */
  lemma ExportThenImport(rt: Runtime, sessions: seq<BreathingSession>, clock: nat -> Instant, draws: nat -> Draw)
    requires Faithful(rt)
    requires forall k :: 0 <= k < |sessions| ==> '\n' !in sessions[k].note
    ensures var r := ValidateAndParse(rt, ExportText(rt, sessions), clock, draws);
      && r.isValid && r.errors == [] && r.skippedRows == 0 && |r.sessions| == |sessions|
      && forall k :: 0 <= k < |sessions| ==> r.sessions[k] == Reimported(rt, sessions[k], draws(k + 1))
  {
    var text := ExportText(rt, sessions);
    var rows := [ExpectedHeaders] + CellRows(rt, sessions);
    TokenizeExport(rt, sessions);
    HeadersAccepted();
    DataRowsWide(rt, sessions);
    WideRowsInOrder(rt, text, clock, draws);
    BatchAccounting(rt, text, clock, draws);
    var r := ValidateAndParse(rt, text, clock, draws);
    forall k | 0 <= k < |sessions| ensures r.sessions[k] == Reimported(rt, sessions[k], draws(k + 1)) {
      ExportedRowDecodes(rt, sessions, k, clock, draws);
    }
  }

  /** The header row of an export passes `validateCSVHeaders`. */
  lemma HeadersAccepted()
    ensures ValidateCSVHeaders(ExpectedHeaders)
  {
    PlainHeaders();
    forall i | 0 <= i < |ExpectedHeaders| ensures Trim(ExpectedHeaders[i]) == ExpectedHeaders[i] {
      TrimOfTrimmed(ExpectedHeaders[i]);
    }
    assert TrimEqualTo(ExpectedHeaders, ExpectedHeaders);
  }

  /** So a session whose first control pause is not 0 does not survive the
      round trip: after import its `controlPause1` is 0. */
  lemma RoundTripLosesControlPause(rt: Runtime, s: BreathingSession, clock: nat -> Instant, draws: nat -> Draw)
    requires Faithful(rt) && '\n' !in s.note && s.controlPause1 != 0
    ensures var r := ValidateAndParse(rt, ExportText(rt, [s]), clock, draws);
      |r.sessions| == 1 && r.sessions[0].controlPause1 == 0 && r.sessions[0] != s
  {
    ExportThenImport(rt, [s], clock, draws);
  }
}
