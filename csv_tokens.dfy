/**
 * The CSV line tokenizer `parseCSV` and the field escaper `escapeCSV` of
 * src/lib/index.ts, with the laws that make them inverse on one line.
 */
module CsvTokens {
  import opened Wrappers
  import opened Text

  /** A tokenized file: one sequence of fields per non-blank line. */
  type Table = seq<seq<string>>

  // ------------------------------------------------------------- tokenizer

  /**
   * The character loop of `parseCSV` on the rest of a line, given the quote
   * flag, the field being built and the fields already pushed: a `"` toggles
   * quoting, except that `""` inside quotes stands for one `"`; a `,` outside
   * quotes ends the field; every other character is part of the field.
   */
  function Scan(rest: string, inQuotes: bool, field: string, row: seq<string>): (r: seq<string>)
    ensures |r| >= |row| + 1
    decreases |rest|
  {
    if rest == [] then row + [field]
    else if rest[0] == '"' then
      if inQuotes && |rest| > 1 && rest[1] == '"' then Scan(rest[2..], inQuotes, field + "\"", row)
      else Scan(rest[1..], !inQuotes, field, row)
    else if rest[0] == ',' && !inQuotes then Scan(rest[1..], inQuotes, "", row + [field])
    else Scan(rest[1..], inQuotes, field + [rest[0]], row)
  }

  /** The fields of one trimmed, non-blank line. */
  function ScanLine(line: string): seq<string> {
    Scan(line, false, "", [])
  }

  /** The row of one line of the file: `None` for a blank line. */
  function RowOf(line: string): Option<seq<string>> {
    var t := Trim(line);
    if t == [] then None else Some(ScanLine(t))
  }

  /** The rows of the lines, blank lines skipped, in line order. */
  function RowsOf(lines: seq<string>): Table {
    if lines == [] then []
    else
      var last := RowOf(lines[|lines| - 1]);
      RowsOf(lines[..|lines| - 1]) + (if last.Some? then [last.value] else [])
  }

  /** What `parseCSV` returns. */
  function Tokenize(csvText: string): Table {
    RowsOf(Split(Trim(csvText), '\n'))
  }

  /** `parseCSV`. */
  method ParseCSV(csvText: string) returns (result: Table)
    ensures result == Tokenize(csvText)
  {
    var lines := Split(Trim(csvText), '\n');
    result := ParseLines(lines);
  }

  /** The line loop of `parseCSV`: blank lines are skipped and every other
      line, trimmed, is split into its fields. */
  method ParseLines(lines: seq<string>) returns (result: Table)
    ensures result == RowsOf(lines)
  {
    result := [];
    var i := 0;
    while i < |lines|
      invariant 0 <= i <= |lines|
      invariant result == RowsOf(lines[..i])
    {
      RowsOfPrefix(lines, i);
      var line := Trim(lines[i]);
      if line != [] {
        var row := ScanFields(line);
        result := result + [row];
      }
      i := i + 1;
    }
    assert lines[..i] == lines;
  }

  /** The character loop of `parseCSV` over one trimmed, non-blank line. */
  method ScanFields(line: string) returns (row: seq<string>)
    ensures row == ScanLine(line)
  {
    row := [];
    var currentField := "";
    var inQuotes := false;
    var j := 0;
    while j < |line|
      invariant 0 <= j <= |line|
      invariant Scan(line[j..], inQuotes, currentField, row) == ScanLine(line)
    {
      var ch := line[j];
      if ch == '"' {
        if inQuotes && j + 1 < |line| && line[j + 1] == '"' {
          assert line[j..][2..] == line[j + 2..];
          currentField := currentField + "\"";
          j := j + 2;
        } else {
          assert line[j..][1..] == line[j + 1..];
          inQuotes := !inQuotes;
          j := j + 1;
        }
      } else if ch == ',' && !inQuotes {
        assert line[j..][1..] == line[j + 1..];
        row := row + [currentField];
        currentField := "";
        j := j + 1;
      } else {
        assert line[j..][1..] == line[j + 1..];
        currentField := currentField + [ch];
        j := j + 1;
      }
    }
    row := row + [currentField];
  }

  /** Lines that each read as a row read as those rows. */
  lemma {:induction false} RowsOfEach(lines: seq<string>, rows: Table)
    requires |lines| == |rows|
    requires forall k :: 0 <= k < |lines| ==> RowOf(lines[k]) == Some(rows[k])
    ensures RowsOf(lines) == rows
  {
    if lines != [] {
      var n := |lines| - 1;
      PrefixReads(lines, rows, n);
      RowsOfEach(lines[..n], rows[..n]);
      RowsOfSnoc(lines, rows[..n], rows[n]);
      SnocLast(rows);
    }
  }

  lemma SnocLast<T>(s: seq<T>)
    requires s != []
    ensures s[..|s| - 1] + [s[|s| - 1]] == s
  {
  }

  lemma PrefixReads(lines: seq<string>, rows: Table, n: nat)
    requires n <= |lines| == |rows|
    requires forall k :: 0 <= k < |lines| ==> RowOf(lines[k]) == Some(rows[k])
    ensures forall k :: 0 <= k < n ==> RowOf(lines[..n][k]) == Some(rows[..n][k])
  {
    assert forall k :: 0 <= k < n ==> lines[..n][k] == lines[k] && rows[..n][k] == rows[k];
  }

  lemma RowsOfSnoc(lines: seq<string>, init: Table, row: seq<string>)
    requires |lines| > 0 && RowsOf(lines[..|lines| - 1]) == init && RowOf(lines[|lines| - 1]) == Some(row)
    ensures RowsOf(lines) == init + [row]
  {
  }

  /** One more line of the file adds its row, if it is not blank. */
  lemma RowsOfPrefix(lines: seq<string>, i: nat)
    requires i < |lines|
    ensures var line := Trim(lines[i]);
      RowsOf(lines[..i + 1]) == RowsOf(lines[..i]) + (if line != [] then [ScanLine(line)] else [])
  {
    assert lines[..i + 1][..i] == lines[..i];
  }

  lemma {:induction false} RowsOfAppend(a: seq<string>, b: seq<string>)
    ensures RowsOf(a + b) == RowsOf(a) + RowsOf(b)
    decreases |b|
  {
    if b == [] {
      assert a + b == a;
    } else {
      var b' := b[..|b| - 1];
      assert (a + b)[..|a + b| - 1] == a + b';
      RowsOfAppend(a, b');
    }
  }

  /** Empty and white-space-only text tokenizes to no rows. */
  lemma TokenizeBlank(csvText: string)
    requires forall i :: 0 <= i < |csvText| ==> IsSpace(csvText[i])
    ensures Tokenize(csvText) == []
  {
    TrimEmpty(csvText);
    assert Split("", '\n') == [""];
    assert RowOf("") == None;
    assert [""][..0] == [];
  }

  /** A white-space-only line gives no row; any other line gives one. */
  lemma RowOfBlank(line: string)
    ensures RowOf(line).None? <==> forall i :: 0 <= i < |line| ==> IsSpace(line[i])
  {
    TrimEmpty(line);
  }

  /** Every emitted row has at least one field. */
  lemma {:induction false} RowsHaveFields(lines: seq<string>)
    ensures forall k :: 0 <= k < |RowsOf(lines)| ==> |RowsOf(lines)[k]| >= 1
  {
    if lines != [] {
      RowsHaveFields(lines[..|lines| - 1]);
    }
  }

  /**
   * The commas that separate fields, counted by an independent rule: a comma
   * separates exactly when an even number of `"` precede it on the line (the
   * `""` escape inside quotes flips the flag twice and so agrees with it).
   */
  function Separators(rest: string, inQuotes: bool): nat
    decreases |rest|
  {
    if rest == [] then 0
    else (if rest[0] == ',' && !inQuotes then 1 else 0)
         + Separators(rest[1..], if rest[0] == '"' then !inQuotes else inQuotes)
  }

  lemma {:induction false} ScanCount(rest: string, inQuotes: bool, field: string, row: seq<string>)
    ensures |Scan(rest, inQuotes, field, row)| == |row| + 1 + Separators(rest, inQuotes)
    decreases |rest|
  {
    if rest != [] {
      if rest[0] == '"' {
        if inQuotes && |rest| > 1 && rest[1] == '"' {
          ScanCount(rest[2..], inQuotes, field + "\"", row);
          assert rest[1..][1..] == rest[2..];
        } else {
          ScanCount(rest[1..], !inQuotes, field, row);
        }
      } else if rest[0] == ',' && !inQuotes {
        ScanCount(rest[1..], inQuotes, "", row + [field]);
      } else {
        ScanCount(rest[1..], inQuotes, field + [rest[0]], row);
      }
    }
  }

  /** A line has one field more than it has separating commas. */
  lemma FieldCount(line: string)
    ensures |ScanLine(line)| == Separators(line, false) + 1
  {
    ScanCount(line, false, "", []);
  }

  // --------------------------------------------------------------- escaping

  /** `value.replace(/"/g, '""')`. */
  function Doubled(s: string): (r: string)
    ensures forall i :: 0 <= i < |r| && r[i] != '"' ==> r[i] in s
  {
    if s == [] then []
    else (if s[0] == '"' then "\"\"" else [s[0]]) + Doubled(s[1..])
  }

  predicate NeedsQuoting(s: string) {
    ',' in s || '"' in s || '\n' in s
  }

  /** `escapeCSV` of a string. A number is escaped as its decimal rendering. */
  function EscapeCSV(value: string): (r: string)
    ensures !NeedsQuoting(value) ==> r == value
    ensures NeedsQuoting(value) ==> r == "\"" + Doubled(value) + "\""
    ensures '\n' !in value ==> '\n' !in r
  {
    if NeedsQuoting(value) then "\"" + Doubled(value) + "\"" else value
  }

  function EscapeAll(values: seq<string>): (r: seq<string>)
    ensures |r| == |values|
    ensures forall k :: 0 <= k < |values| ==> r[k] == EscapeCSV(values[k])
  {
    seq(|values|, k requires 0 <= k < |values| => EscapeCSV(values[k]))
  }

  // One step of `Scan` each: stating them once keeps the solver from
  // unfolding `Scan` on every concatenation in the proofs below.

  lemma ScanPair(w: string, field: string, row: seq<string>)
    requires |w| > 1 && w[0] == '"' && w[1] == '"'
    ensures Scan(w, true, field, row) == Scan(w[2..], true, field + "\"", row)
  {
  }

  lemma ScanToggle(w: string, inQuotes: bool, field: string, row: seq<string>)
    requires |w| > 0 && w[0] == '"' && !(inQuotes && |w| > 1 && w[1] == '"')
    ensures Scan(w, inQuotes, field, row) == Scan(w[1..], !inQuotes, field, row)
  {
  }

  lemma ScanSeparator(w: string, field: string, row: seq<string>)
    requires |w| > 0 && w[0] == ','
    ensures Scan(w, false, field, row) == Scan(w[1..], false, "", row + [field])
  {
  }

  lemma ScanKeep(w: string, inQuotes: bool, field: string, row: seq<string>)
    requires |w| > 0 && w[0] != '"' && !(w[0] == ',' && !inQuotes)
    ensures Scan(w, inQuotes, field, row) == Scan(w[1..], inQuotes, field + [w[0]], row)
  {
  }

  lemma {:induction false} ScanPlain(x: string, rest: string, acc: string, row: seq<string>)
    requires '"' !in x && ',' !in x
    ensures Scan(x + rest, false, acc, row) == Scan(rest, false, acc + x, row)
    decreases |x|
  {
    var w := x + rest;
    if x != [] {
      assert w[0] == x[0] && w[1..] == x[1..] + rest;
      ScanKeep(w, false, acc, row);
      ScanPlain(x[1..], rest, acc + [x[0]], row);
      assert acc + [x[0]] + x[1..] == acc + x;
    } else {
      assert w == rest && acc + x == acc;
    }
  }

  /** Inside quotes the doubled content reads back as the content, and the
      closing quote ends quoting. */
  lemma {:induction false} ScanQuoted(x: string, rest: string, acc: string, row: seq<string>)
    requires rest == [] || rest[0] != '"'
    ensures Scan(Doubled(x) + "\"" + rest, true, acc, row) == Scan(rest, false, acc + x, row)
    decreases |x|
  {
    var w := Doubled(x) + "\"" + rest;
    if x == [] {
      assert w == "\"" + rest;
      ScanToggle(w, true, acc, row);
      assert w[1..] == rest;
      assert acc + x == acc;
    } else {
      var tail := Doubled(x[1..]) + "\"" + rest;
      if x[0] == '"' {
        assert w == "\"\"" + tail;
        ScanPair(w, acc, row);
        assert w[2..] == tail;
        ScanQuoted(x[1..], rest, acc + "\"", row);
        assert acc + "\"" + x[1..] == acc + x;
      } else {
        assert w == [x[0]] + tail;
        ScanKeep(w, true, acc, row);
        assert w[1..] == tail;
        ScanQuoted(x[1..], rest, acc + [x[0]], row);
        assert acc + [x[0]] + x[1..] == acc + x;
      }
    }
  }

  /** An escaped field followed by the end of the line or a comma reads back as the field. */
  lemma ScanEscaped(f: string, rest: string, row: seq<string>)
    requires rest == [] || rest[0] == ','
    ensures Scan(EscapeCSV(f) + rest, false, "", row) == Scan(rest, false, f, row)
  {
    if NeedsQuoting(f) {
      ScanQuotedField(f, rest, row);
    } else {
      ScanPlain(f, rest, "", row);
      assert "" + f == f;
    }
  }

  /** A quoted field: the opening quote starts quoting, the rest reads back. */
  lemma ScanQuotedField(f: string, rest: string, row: seq<string>)
    requires rest == [] || rest[0] == ','
    ensures Scan("\"" + Doubled(f) + "\"" + rest, false, "", row) == Scan(rest, false, f, row)
  {
    var inner := Doubled(f) + "\"" + rest;
    var w := "\"" + Doubled(f) + "\"" + rest;
    assert w == "\"" + inner;
    ScanToggle(w, false, "", row);
    assert w[1..] == inner;
    ScanQuoted(f, rest, "", row);
    assert "" + f == f;
  }

  lemma EscapeAllCons(fields: seq<string>)
    requires |fields| >= 1
    ensures EscapeAll(fields) == [EscapeCSV(fields[0])] + EscapeAll(fields[1..])
  {
    assert forall k :: 1 <= k < |fields| ==> fields[k] == fields[1..][k - 1];
  }

  /** The first escaped field of a join, and the comma after it, read back. */
  lemma ScanJoinStep(fields: seq<string>, row: seq<string>)
    requires |fields| >= 2
    ensures Scan(Join(EscapeAll(fields), ","), false, "", row)
            == Scan(Join(EscapeAll(fields[1..]), ","), false, "", row + [fields[0]])
  {
    var e := EscapeAll(fields);
    EscapeAllCons(fields);
    var tail := Join(EscapeAll(fields[1..]), ",");
    var w := "," + tail;
    assert e[1..] == EscapeAll(fields[1..]);
    JoinCons(e, ",");
    assert Join(e, ",") == EscapeCSV(fields[0]) + w;
    ScanEscaped(fields[0], w, row);
    ScanSeparator(w, fields[0], row);
    assert w[1..] == tail;
  }

  lemma AppendCons<T>(row: seq<T>, xs: seq<T>)
    requires |xs| >= 1
    ensures row + [xs[0]] + xs[1..] == row + xs
  {
    assert [xs[0]] + xs[1..] == xs;
  }

  lemma {:induction false} ScanJoin(fields: seq<string>, row: seq<string>)
    requires |fields| >= 1
    ensures Scan(Join(EscapeAll(fields), ","), false, "", row) == row + fields
  {
    if |fields| == 1 {
      EscapeAllCons(fields);
      assert EscapeAll(fields) == [EscapeCSV(fields[0])];
      assert Join(EscapeAll(fields), ",") == EscapeCSV(fields[0]) + "";
      ScanEscaped(fields[0], "", row);
    } else {
      ScanJoinStep(fields, row);
      ScanJoin(fields[1..], row + [fields[0]]);
      AppendCons(row, fields);
    }
  }

  /** Tokenizing escaped fields joined by commas gives the fields back. */
  lemma ScanLineOfEscaped(fields: seq<string>)
    requires |fields| >= 1
    ensures ScanLine(Join(EscapeAll(fields), ",")) == fields
  {
    ScanJoin(fields, []);
  }
}
