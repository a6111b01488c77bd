/**
 * `convertSessionsToCSV` of src/lib/index.ts: a header line, then one line of
 * escaped cells per session.
 */
module CsvExport {
  import opened Text
  import opened Sessions
  import opened CsvHeaders
  import opened CsvTokens

  // ----------------------------------------------------------------- export

  /** The ten cells of a session, in the order of `EXPECTED_CSV_HEADERS`. */
  function Cells(rt: Runtime, s: BreathingSession): (cells: seq<string>)
    ensures |cells| == |ExpectedHeaders|
  {
    [rt.toISO(s.date), TypeName(s.exerciseType), rt.showNum(s.controlPause1), rt.showNum(s.maxPause1),
     rt.showNum(s.maxPause2), rt.showNum(s.maxPause3), rt.showNum(s.controlPause2), s.note,
     rt.showNum(s.pulse1), rt.showNum(s.pulse2)]
  }

  /** The cells are the session's fields, in the order of the headers. */
  lemma CellsAt(rt: Runtime, s: BreathingSession)
    ensures var c := Cells(rt, s);
      && c[0] == rt.toISO(s.date) && c[1] == TypeName(s.exerciseType)
      && c[2] == rt.showNum(s.controlPause1) && c[3] == rt.showNum(s.maxPause1)
      && c[4] == rt.showNum(s.maxPause2) && c[5] == rt.showNum(s.maxPause3)
      && c[6] == rt.showNum(s.controlPause2) && c[7] == s.note
      && c[8] == rt.showNum(s.pulse1) && c[9] == rt.showNum(s.pulse2)
  {
  }

  function HeaderLine(): string {
    Join(ExpectedHeaders, ",")
  }

  function ExportLine(rt: Runtime, s: BreathingSession): string {
    Join(EscapeAll(Cells(rt, s)), ",")
  }

  function ExportLines(rt: Runtime, sessions: seq<BreathingSession>): (lines: seq<string>)
    ensures |lines| == |sessions|
  {
    if sessions == [] then []
    else ExportLines(rt, sessions[..|sessions| - 1]) + [ExportLine(rt, sessions[|sessions| - 1])]
  }

  /** What `convertSessionsToCSV` returns. */
  function ExportText(rt: Runtime, sessions: seq<BreathingSession>): string {
    Join([HeaderLine()] + ExportLines(rt, sessions), "\n")
  }

  /** `convertSessionsToCSV`. */
  method ConvertSessionsToCSV(rt: Runtime, sessions: seq<BreathingSession>) returns (csv: string)
    ensures csv == ExportText(rt, sessions)
  {
    var csvLines := [Join(ExpectedHeaders, ",")];
    var i := 0;
    while i < |sessions|
      invariant 0 <= i <= |sessions|
      invariant csvLines == [HeaderLine()] + ExportLines(rt, sessions[..i])
    {
      var session := sessions[i];
      var row := [EscapeCSV(rt.toISO(session.date)), EscapeCSV(TypeName(session.exerciseType)),
                  EscapeCSV(rt.showNum(session.controlPause1)), EscapeCSV(rt.showNum(session.maxPause1)),
                  EscapeCSV(rt.showNum(session.maxPause2)), EscapeCSV(rt.showNum(session.maxPause3)),
                  EscapeCSV(rt.showNum(session.controlPause2)), EscapeCSV(session.note),
                  EscapeCSV(rt.showNum(session.pulse1)), EscapeCSV(rt.showNum(session.pulse2))];
      RowIsExportLine(rt, session);
      ExportLinesStep(rt, sessions, i, HeaderLine(), csvLines);
      csvLines := csvLines + [Join(row, ",")];
      i := i + 1;
    }
    assert sessions[..|sessions|] == sessions;
    csv := Join(csvLines, "\n");
  }

  lemma RowIsExportLine(rt: Runtime, s: BreathingSession)
    ensures Join([EscapeCSV(rt.toISO(s.date)), EscapeCSV(TypeName(s.exerciseType)),
                  EscapeCSV(rt.showNum(s.controlPause1)), EscapeCSV(rt.showNum(s.maxPause1)),
                  EscapeCSV(rt.showNum(s.maxPause2)), EscapeCSV(rt.showNum(s.maxPause3)),
                  EscapeCSV(rt.showNum(s.controlPause2)), EscapeCSV(s.note),
                  EscapeCSV(rt.showNum(s.pulse1)), EscapeCSV(rt.showNum(s.pulse2))], ",")
            == ExportLine(rt, s)
  {
    RowIsEscapedCells(rt, s);
  }

  /** The row built field by field is the escaped cells. */
  lemma RowIsEscapedCells(rt: Runtime, s: BreathingSession)
    ensures [EscapeCSV(rt.toISO(s.date)), EscapeCSV(TypeName(s.exerciseType)),
             EscapeCSV(rt.showNum(s.controlPause1)), EscapeCSV(rt.showNum(s.maxPause1)),
             EscapeCSV(rt.showNum(s.maxPause2)), EscapeCSV(rt.showNum(s.maxPause3)),
             EscapeCSV(rt.showNum(s.controlPause2)), EscapeCSV(s.note),
             EscapeCSV(rt.showNum(s.pulse1)), EscapeCSV(rt.showNum(s.pulse2))]
            == EscapeAll(Cells(rt, s))
  {
    EscapeTen(rt.toISO(s.date), TypeName(s.exerciseType), rt.showNum(s.controlPause1), rt.showNum(s.maxPause1),
              rt.showNum(s.maxPause2), rt.showNum(s.maxPause3), rt.showNum(s.controlPause2), s.note,
              rt.showNum(s.pulse1), rt.showNum(s.pulse2));
  }

  lemma EscapeTen(a0: string, a1: string, a2: string, a3: string, a4: string,
                  a5: string, a6: string, a7: string, a8: string, a9: string)
    ensures EscapeAll([a0, a1, a2, a3, a4, a5, a6, a7, a8, a9])
            == [EscapeCSV(a0), EscapeCSV(a1), EscapeCSV(a2), EscapeCSV(a3), EscapeCSV(a4),
                EscapeCSV(a5), EscapeCSV(a6), EscapeCSV(a7), EscapeCSV(a8), EscapeCSV(a9)]
  {
    var e := EscapeAll([a0, a1, a2, a3, a4, a5, a6, a7, a8, a9]);
    var r := [EscapeCSV(a0), EscapeCSV(a1), EscapeCSV(a2), EscapeCSV(a3), EscapeCSV(a4),
              EscapeCSV(a5), EscapeCSV(a6), EscapeCSV(a7), EscapeCSV(a8), EscapeCSV(a9)];
    assert e[0] == r[0] && e[1] == r[1] && e[2] == r[2] && e[3] == r[3] && e[4] == r[4];
    assert e[5] == r[5] && e[6] == r[6] && e[7] == r[7] && e[8] == r[8] && e[9] == r[9];
  }

  lemma ExportLinesSnoc(rt: Runtime, sessions: seq<BreathingSession>, i: nat)
    requires i < |sessions|
    ensures ExportLines(rt, sessions[..i + 1]) == ExportLines(rt, sessions[..i]) + [ExportLine(rt, sessions[i])]
  {
    assert sessions[..i + 1][..i] == sessions[..i];
  }

  /** The loop step of `convertSessionsToCSV`: pushing the line of session
      `i` extends the lines of the sessions before it. */
  lemma ExportLinesStep(rt: Runtime, sessions: seq<BreathingSession>, i: nat, header: string, csvLines: seq<string>)
    requires i < |sessions| && csvLines == [header] + ExportLines(rt, sessions[..i])
    ensures csvLines + [ExportLine(rt, sessions[i])] == [header] + ExportLines(rt, sessions[..i + 1])
  {
    ExportLinesSnoc(rt, sessions, i);
  }

  /** The export has one line per session, in input order. */
  lemma {:induction false} ExportLinesAt(rt: Runtime, sessions: seq<BreathingSession>)
    ensures forall k :: 0 <= k < |sessions| ==> ExportLines(rt, sessions)[k] == ExportLine(rt, sessions[k])
  {
    if sessions != [] {
      var init := sessions[..|sessions| - 1];
      ExportLinesAt(rt, init);
      assert forall k :: 0 <= k < |init| ==> init[k] == sessions[k];
    }
  }

  /** With no sessions the export is the header line alone. */
  lemma ExportEmpty(rt: Runtime)
    ensures ExportText(rt, []) == Join(ExpectedHeaders, ",")
  {
    assert [HeaderLine()] + ExportLines(rt, []) == [HeaderLine()];
  }

  // ------------------------------------------------------------ cell shape

  /** A cell that `escapeCSV` leaves alone and that `trim` cannot shorten. */
  predicate PlainCell(c: string) {
    c != [] && !NeedsQuoting(c) && !IsSpace(c[0]) && !IsSpace(c[|c| - 1])
  }

  lemma PlainIso(rt: Runtime, t: Instant)
    requires Faithful(rt)
    ensures PlainCell(rt.toISO(t))
  {
    var iso := rt.toISO(t);
    assert IsIsoChar(iso[0]) && IsIsoChar(iso[|iso| - 1]);
  }

  lemma PlainNumber(rt: Runtime, n: int)
    requires Faithful(rt)
    ensures PlainCell(rt.showNum(n))
  {
    var num := rt.showNum(n);
    assert IsNumeralChar(num[0]) && IsNumeralChar(num[|num| - 1]);
  }

  lemma PlainTypeName(t: ExerciseType)
    ensures PlainCell(TypeName(t))
  {
  }

  /** The characters of the header names: letters, digits and spaces. */
  predicate HeaderChar(c: char) {
    'a' <= c <= 'z' || 'A' <= c <= 'Z' || '0' <= c <= '9' || c == ' '
  }

  /** A name made of header characters, with no space at either end, is plain. */
  lemma PlainName(h: string)
    requires h != [] && h[0] != ' ' && h[|h| - 1] != ' '
    requires forall i :: 0 <= i < |h| ==> HeaderChar(h[i])
    ensures PlainCell(h)
  {
  }

  lemma PlainHeadersFirst()
    ensures forall k :: 0 <= k < 5 ==> PlainCell(ExpectedHeaders[k])
  {
    var h := ExpectedHeaders;
    PlainName(h[0]);
    PlainName(h[1]);
    PlainName(h[2]);
    PlainName(h[3]);
    PlainName(h[4]);
  }

  lemma PlainHeadersRest()
    ensures forall k :: 5 <= k < 10 ==> PlainCell(ExpectedHeaders[k])
  {
    var h := ExpectedHeaders;
    PlainName(h[5]);
    PlainName(h[6]);
    PlainName(h[7]);
    PlainName(h[8]);
    PlainName(h[9]);
  }

  lemma PlainHeaders()
    ensures forall k :: 0 <= k < |ExpectedHeaders| ==> PlainCell(ExpectedHeaders[k])
  {
    PlainHeadersFirst();
    PlainHeadersRest();
  }

  lemma NoBreakInPlain(c: string)
    requires PlainCell(c)
    ensures '\n' !in c
  {
  }

  /** Every cell but the note is plain. */
  lemma CellsPlain(rt: Runtime, s: BreathingSession)
    requires Faithful(rt)
    ensures var c := Cells(rt, s);
      && PlainCell(c[0]) && PlainCell(c[1]) && PlainCell(c[2]) && PlainCell(c[3]) && PlainCell(c[4])
      && PlainCell(c[5]) && PlainCell(c[6]) && PlainCell(c[8]) && PlainCell(c[9])
  {
    PlainIso(rt, s.date);
    OtherCellsPlain(rt, s);
  }

  lemma OtherCellsPlain(rt: Runtime, s: BreathingSession)
    requires Faithful(rt)
    ensures var c := Cells(rt, s);
      && PlainCell(c[1]) && PlainCell(c[2]) && PlainCell(c[3]) && PlainCell(c[4])
      && PlainCell(c[5]) && PlainCell(c[6]) && PlainCell(c[8]) && PlainCell(c[9])
  {
    PlainTypeName(s.exerciseType);
    PlainNumber(rt, s.controlPause1);
    PlainNumber(rt, s.maxPause1);
    PlainNumber(rt, s.maxPause2);
    PlainNumber(rt, s.maxPause3);
    PlainNumber(rt, s.controlPause2);
    PlainNumber(rt, s.pulse1);
    PlainNumber(rt, s.pulse2);
    PlainFields(rt, s);
  }

  /** The cells of the plain fields are plain. */
  lemma PlainFields(rt: Runtime, s: BreathingSession)
    requires PlainCell(TypeName(s.exerciseType))
    requires PlainCell(rt.showNum(s.controlPause1)) && PlainCell(rt.showNum(s.maxPause1))
    requires PlainCell(rt.showNum(s.maxPause2)) && PlainCell(rt.showNum(s.maxPause3))
    requires PlainCell(rt.showNum(s.controlPause2))
    requires PlainCell(rt.showNum(s.pulse1)) && PlainCell(rt.showNum(s.pulse2))
    ensures var c := Cells(rt, s);
      && PlainCell(c[1]) && PlainCell(c[2]) && PlainCell(c[3]) && PlainCell(c[4])
      && PlainCell(c[5]) && PlainCell(c[6]) && PlainCell(c[8]) && PlainCell(c[9])
  {
    var c := Cells(rt, s);
    assert c[1] == TypeName(s.exerciseType);
    assert c[2] == rt.showNum(s.controlPause1);
    assert c[3] == rt.showNum(s.maxPause1);
    assert c[4] == rt.showNum(s.maxPause2);
    assert c[5] == rt.showNum(s.maxPause3);
    assert c[6] == rt.showNum(s.controlPause2);
    assert c[8] == rt.showNum(s.pulse1);
    assert c[9] == rt.showNum(s.pulse2);
  }

  /** A joined line of escaped cells whose end cells are plain has no line
      break when no cell has one, and neither of its ends is white space. */
  lemma LineShape(cells: seq<string>)
    requires |cells| >= 1 && PlainCell(cells[0]) && PlainCell(cells[|cells| - 1])
    requires forall k :: 0 <= k < |cells| ==> '\n' !in cells[k]
    ensures var line := Join(EscapeAll(cells), ",");
      '\n' !in line && line != [] && Trimmed(line)
  {
    LineNoBreak(cells);
    LineEnds(cells);
  }

  lemma LineNoBreak(cells: seq<string>)
    requires forall k :: 0 <= k < |cells| ==> '\n' !in cells[k]
    ensures '\n' !in Join(EscapeAll(cells), ",")
  {
    var e := EscapeAll(cells);
    assert forall k :: 0 <= k < |e| ==> '\n' !in e[k];
    JoinChars(e, ",", '\n');
  }

  lemma LineEnds(cells: seq<string>)
    requires |cells| >= 1 && PlainCell(cells[0]) && PlainCell(cells[|cells| - 1])
    ensures var line := Join(EscapeAll(cells), ",");
      line != [] && Trimmed(line)
  {
    var e := EscapeAll(cells);
    var first, last := cells[0], cells[|cells| - 1];
    assert e[0] == first;
    assert e[|e| - 1] == last;
    PlainTrimmed(first);
    PlainTrimmed(last);
    JoinTrimmed(e, ",");
  }

  lemma PlainTrimmed(c: string)
    requires PlainCell(c)
    ensures c != [] && Trimmed(c)
  {
  }

  /** An exported line has no line break, and neither end is white space. */
  lemma ExportLineShape(rt: Runtime, s: BreathingSession)
    requires Faithful(rt) && '\n' !in s.note
    ensures var line := ExportLine(rt, s);
      '\n' !in line && line != [] && Trimmed(line)
  {
    CellsPlain(rt, s);
    var c := Cells(rt, s);
    assert c[7] == s.note;
    TenCellLine(c);
  }

  /** A line of ten cells, all plain but the note, which has no line break. */
  lemma TenCellLine(c: seq<string>)
    requires |c| == 10 && '\n' !in c[7]
    requires PlainCell(c[0]) && PlainCell(c[1]) && PlainCell(c[2]) && PlainCell(c[3]) && PlainCell(c[4])
    requires PlainCell(c[5]) && PlainCell(c[6]) && PlainCell(c[8]) && PlainCell(c[9])
    ensures var line := Join(EscapeAll(c), ",");
      '\n' !in line && line != [] && Trimmed(line)
  {
    forall k | 0 <= k < |c| ensures '\n' !in c[k] {
      if k != 7 { NoBreakInPlain(c[k]); }
    }
    LineShape(c);
  }

  /** The header line: no header needs quoting, and the line has no line
      break and neither end is white space. */
  lemma HeaderLineShape()
    ensures EscapeAll(ExpectedHeaders) == ExpectedHeaders
    ensures '\n' !in HeaderLine() && HeaderLine() != [] && Trimmed(HeaderLine())
  {
    PlainHeaders();
    PlainRow(ExpectedHeaders);
  }

  /** A row of plain cells is left alone by escaping, and its line has no
      line break and neither end is white space. */
  lemma PlainRow(cells: seq<string>)
    requires |cells| >= 1 && forall k :: 0 <= k < |cells| ==> PlainCell(cells[k])
    ensures EscapeAll(cells) == cells
    ensures var line := Join(cells, ","); '\n' !in line && line != [] && Trimmed(line)
  {
    var e := EscapeAll(cells);
    assert forall k :: 0 <= k < |e| ==> e[k] == cells[k];
    forall k | 0 <= k < |cells| ensures '\n' !in cells[k] {
      NoBreakInPlain(cells[k]);
    }
    LineShape(cells);
  }

  /** Splitting the export at line breaks gives the header line and then one
      line per session, in input order. */
  lemma ExportTextLines(rt: Runtime, sessions: seq<BreathingSession>)
    requires Faithful(rt)
    requires forall k :: 0 <= k < |sessions| ==> '\n' !in sessions[k].note
    ensures Split(ExportText(rt, sessions), '\n') == [HeaderLine()] + ExportLines(rt, sessions)
  {
    var lines := [HeaderLine()] + ExportLines(rt, sessions);
    HeaderLineShape();
    ExportLinesAt(rt, sessions);
    forall k | 0 <= k < |lines| ensures '\n' !in lines[k] {
      if k > 0 { ExportLineShape(rt, sessions[k - 1]); }
    }
    SplitJoin(lines, '\n');
  }

  /** The export starts with the header line and ends with the last
      session's line, so `trim` leaves it alone. */
  lemma ExportTextTrimmed(rt: Runtime, sessions: seq<BreathingSession>)
    requires Faithful(rt)
    requires forall k :: 0 <= k < |sessions| ==> '\n' !in sessions[k].note
    ensures Trim(ExportText(rt, sessions)) == ExportText(rt, sessions)
  {
    var lines := [HeaderLine()] + ExportLines(rt, sessions);
    HeaderLineShape();
    LastExportLine(rt, sessions);
    JoinTrimmed(lines, "\n");
    TrimOfTrimmed(ExportText(rt, sessions));
  }

  lemma LastExportLine(rt: Runtime, sessions: seq<BreathingSession>)
    requires Faithful(rt)
    requires forall k :: 0 <= k < |sessions| ==> '\n' !in sessions[k].note
    ensures var lines := [HeaderLine()] + ExportLines(rt, sessions);
      lines[|lines| - 1] != [] && Trimmed(lines[|lines| - 1])
  {
    HeaderLineShape();
    if sessions != [] {
      ExportLinesAt(rt, sessions);
      ExportLineShape(rt, sessions[|sessions| - 1]);
    }
  }
}
