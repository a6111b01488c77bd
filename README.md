# breathe-less core in Dafny

A model of the data-handling core of breathe-less, a breathing-exercise
web app. The app stores one `BreathingSession` per completed exercise in
IndexedDB and exports the sessions to CSV, which it can import again.

The model covers five parts of the source:

- **CSV export and import** (`src/lib/index.ts`):
  - `escapeCSV` and `convertSessionsToCSV`;
  - the tokenizer `parseCSV`;
  - the header check `validateCSVHeaders`;
  - the row decoder `parseCSVRow`, with its date fallbacks;
  - `parseLocaleDateString`;
  - the batch `validateAndParseCSV`.
- **Helpers** (`src/lib/index.ts`): `generateUniqueId`, `normaliseHostname`, `isValidEmail`, `stripHtml` and `shuffle`.
- **Storage records** (`src/lib/breathingStorage.ts`):
  - the old-format check `needsMigration` and the conversion `migrateOldRecord`;
  - the per-record steps of the version 2, 3 and 4 upgrades;
  - the field copy made before `store.put`;
  - the order of the upgrade steps in `init`.
- **Statistics** (`src/lib/stats.ts`): `median` and `percentile`.
- **Exercises** (`src/lib/exercises/`): the layouts, log mappers and configurations of the classical, diminished and morning-control-pause exercises.

Files and modules:

| file | module | contents |
|---|---|---|
| `wrappers.dfy` | `Wrappers` | `Option` |
| `text.dfy` | `Text` | the JavaScript string primitives the core uses (`trim`, `split`, `join`, `\s`, `String(n)` of an integer, `parseInt`) |
| `sessions.dfy` | `Sessions` | `BreathingSession`, `ExerciseType`, and `Runtime`, the platform calls the core only passes on |
| `utils.dfy` | `Utils` | the helpers and `parseLocaleDateString` |
| `csv_headers.dfy` | `CsvHeaders` | the three header layouts and `validateCSVHeaders` |
| `csv_tokens.dfy` | `CsvTokens` | `parseCSV` and `escapeCSV` |
| `csv_export.dfy` | `CsvExport` | `convertSessionsToCSV` |
| `csv_import.dfy` | `CsvImport` | `parseCSVRow` and `validateAndParseCSV` |
| `csv_roundtrip.dfy` | `CsvRoundTrip` | what importing an export gives back |
| `storage.dfy` | `Storage` | stored records and their upgrades |
| `stats.dfy` | `Stats` | median and percentile |
| `exercises.dfy` | `Exercises` | the three exercises |

How the code's state is modelled:

- **Loops.** The loops of the source are methods with loop invariants, each proved equal to a specification function:
  - `parseCSV` and its character loop;
  - the row loop of `validateAndParseCSV`;
  - the row building of `convertSessionsToCSV`;
  - the pattern loop of `parseLocaleDateString`.
- **Arrays.** `shuffle` swaps in place in an `array`.
- **Upgrade steps.** The version 2, 3 and 4 steps change the record under the IndexedDB cursor. They are methods of the class `CursorRecord`, whose `fields` map they update. `onupgradeneeded` opens all three cursors before any update is made, and the transaction serves requests in the order they were made. So each step reads the record as it was before the upgrade, and the last step that writes decides what is stored (`Storage.UpgradeStoredRecord`).
- **Everything else** is a function over values.

**Platform calls.** The model cannot see inside these calls, so they are parameters:

- `Runtime` stands for:
  - `new Date(string)`;
  - `toISOString`;
  - `String(number)`;
  - `parseFloat`;
  - the local-time `Date` constructor.
- The clock `new Date()` is a parameter `now`, or `clock(i)` for row `i`.
- Each `Math.random()` draw is a parameter `draw`, or a `draws` sequence.

The export/import lemmas assume only the documented behaviour of these calls, stated in `Sessions.Faithful`: `new Date` reads back an ISO string, and `parseFloat` reads back `String(n)`.

**Where the code and its own comments disagree.** `parseCSVRow` follows its code, not its comments:

- The comments (`src/lib/index.ts:237-240`) describe three row layouts, chosen by column count.
- `EXPECTED_CSV_HEADERS` has 10 entries. A 10-column row therefore always satisfies the legacy-v2 test first (`src/lib/index.ts:242, 332`).
- So the current-format branch (`src/lib/index.ts:343-361`) cannot be reached:
  - the exercise type is always `classical`;
  - the type cell of an exported file is read as `controlPause1`.
- The model does the same. `CsvRoundTrip.ExportThenImport` states exactly what an export that is imported again gives back.

The morning-control-pause configuration is named `'Morning CP'` in `src/lib/exercises/mcp.ts:59`, while its test expects `'Morning Control Pause'`. The model uses the code's name.

## Model

| member | source | states |
|---|---|---|
| Sessions.TypeName | src/lib/breathingStorage.ts:2 | each exercise type has a non-empty lower-case tag |
| Sessions.TypeNameInjective | src/lib/breathingStorage.ts:2 | distinct exercise types have distinct tags, and equal tags mean equal types |
| Text.Trim | src/lib/index.ts:189 | `trim` gives a string with no white space at either end, no longer than its input |
| Text.TrimEmpty | src/lib/index.ts:193-194 | a line trims to the empty string exactly when it is all white space |
| Text.TrimSlice | src/lib/index.ts:189 | the trimmed string is a contiguous slice of the input |
| Text.TrimOfTrimmed | src/lib/index.ts:189 | trimming a string with no white space at its ends changes nothing |
| Text.TrimStartDropsSpaces | src/lib/index.ts:189 | everything removed from the front is white space |
| Text.TrimEndDropsSpaces | src/lib/index.ts:189 | everything removed from the back is white space |
| Text.Split | src/lib/index.ts:189 | `split` gives at least one piece, and no piece contains the separator |
| Text.SplitJoin | src/lib/index.ts:189 | splitting a join, on a separator no part contains, gives the parts back |
| Text.JoinTrimmed | src/lib/index.ts:123 | a join whose first part starts and whose last part ends with non-space is non-empty and trimmed |
| Text.JoinChars | src/lib/index.ts:120 | a character that is in no part and not in the separator is not in the join |
| Text.Lower | src/lib/index.ts:549 | ASCII `toLowerCase` keeps the length and lower-cases each letter |
| Text.NatToString | src/lib/index.ts:185 | the decimal rendering is a non-empty string of digits with no leading zero |
| Text.IntToString | src/lib/index.ts:185 | `String(n)` is the digits of `n`, after a minus sign when `n` is negative |
| Text.DigitsValueOfNatToString | src/lib/index.ts:520-522 | `parseInt` of the decimal rendering of `n` is `n` |
| Text.IntToStringChars | src/lib/index.ts:185 | the rendering has only digits and a minus sign, and ends with a digit |
| Utils.GenerateUniqueId | src/lib/index.ts:181-186 | the id is the timestamp, a dash and the random draw, each in decimal |
| Utils.IdParts | src/lib/index.ts:181-186 | the id splits at its dash into exactly two decimal parts, which read back as the timestamp and a draw below 1000 |
| Utils.NormaliseHostname | src/lib/index.ts:85-87 | a leading `dev.` is removed, then one trailing `.localhost` or `.svelte`; the result is never longer |
| Utils.NormaliseHostnameIsRegexReplace | src/lib/index.ts:86 | that removal is the left-to-right global replacement of the regex `^dev\.\|\.localhost$\|\.svelte$` |
| Utils.ValidEmailMatches | src/lib/index.ts:81-83 | whatever `IsValidEmail` accepts, the regex `^[^@\s]+@[^@\s]+\.[^@\s]+` matches |
| Utils.MatchingEmailValid | src/lib/index.ts:81-83 | whatever the regex matches, `IsValidEmail` accepts |
| Utils.IsValidEmailIsRegex | src/lib/index.ts:81-83 | `IsValidEmail` holds exactly when the regex matches |
| Utils.StripHtml | src/lib/index.ts:164-166 | `stripHtml` gives a trimmed string |
| Utils.StripHtmlLeavesNoOpener | src/lib/index.ts:165 | no `<` that could open a tag survives: every kept `<` is last or followed by `>` |
| Utils.StripHtmlPlain | src/lib/index.ts:165 | text without `<` is only trimmed |
| Utils.RemoveTagsShift | src/lib/index.ts:165 | the removal after a position does not depend on the text before it |
| Utils.RemoveTagsDropsTag | src/lib/index.ts:165 | text before a tag is kept, the tag up to its `>` is removed, and the removal goes on after it |
| Utils.RemoveTagsDropsOpenTag | src/lib/index.ts:165 | a tag left open at the end is removed to the end, and the text before it is kept |
| Utils.Swap | src/lib/index.ts:91 | the swap exchanges two positions and leaves the others |
| Utils.FisherYatesPermutes | src/lib/index.ts:88-93 | the shuffle's result is a permutation of its input |
| Utils.FisherYatesIdentity | src/lib/index.ts:88-93 | when every draw picks its own index, nothing moves |
| Utils.Shuffle | src/lib/index.ts:88-93 | the in-place loop leaves the array equal to the swaps from the last index down to 1, a permutation of the old contents |
| Utils.BlankNonDigits | src/lib/index.ts:507 | every non-digit becomes a space and digits are kept, length unchanged |
| Utils.DateParts | src/lib/index.ts:507-508 | the date parts are non-empty digit strings |
| Utils.MatchTimeAt | src/lib/index.ts:539-541 | a time match has one or two digits for hours and minutes and, when present, for seconds |
| Utils.FindTime | src/lib/index.ts:539-541 | the first time match in the string has the same shape |
| Utils.MeridiemIs24HourClock | src/lib/index.ts:547-552 | with am/pm, a 12-hour reading becomes an hour from 0 to 23 in the same 12-hour position, in the afternoon exactly for pm |
| Utils.TryPatternsOrder | src/lib/index.ts:513-561 | the first pattern that yields a valid date wins, in the order DD/MM/YYYY, MM/DD/YYYY, YYYY/MM/DD |
| Utils.LocaleDatePatternOrder | src/lib/index.ts:503-566 | fewer than three numbers give the Invalid Date; otherwise the result is the first pattern that yields a date |
| Utils.ParseTime | src/lib/index.ts:534-554 | the time loop computes the hours, minutes and seconds of the first time match, 0 when there is none |
| Utils.TryPattern | src/lib/index.ts:520-560 | one pattern gives a date only when its numbers are in range and the local date is valid |
| Utils.ParseLocaleDateString | src/lib/index.ts:503-566 | the loop returns exactly what the pattern order above gives |
| CsvHeaders.Every | src/lib/index.ts:453-455 | `every` holds exactly when each trimmed header equals the expected one at its index |
| CsvHeaders.ValidateCSVHeaders | src/lib/index.ts:450-501 | headers are accepted exactly when they trim-equal the current, legacy-v1 or legacy-v2 list, so only 10 or 11 headers can pass |
| CsvTokens.Scan | src/lib/index.ts:201-226 | the character loop always produces at least one more field than it started with |
| CsvTokens.ParseCSV | src/lib/index.ts:188-231 | the nested loops return the rows of the trimmed, split, non-blank lines in line order |
| CsvTokens.ParseLines | src/lib/index.ts:192-228 | the line loop returns the row of each non-blank trimmed line, in line order |
| CsvTokens.ScanFields | src/lib/index.ts:196-226 | the character loop returns the fields of the line |
| CsvTokens.TokenizeBlank | src/lib/index.ts:189-194 | an empty or all-white-space file has no rows |
| CsvTokens.RowOfBlank | src/lib/index.ts:193-194 | a line yields no row exactly when it is all white space |
| CsvTokens.RowsHaveFields | src/lib/index.ts:226-227 | every row has at least one field |
| CsvTokens.RowsOfAppend | src/lib/index.ts:192-228 | the rows of two runs of lines are the rows of each, in order |
| CsvTokens.RowsOfEach | src/lib/index.ts:192-228 | when each line yields its row, the rows come out in line order |
| CsvTokens.FieldCount | src/lib/index.ts:214-226 | a line has one more field than it has commas outside quotes |
| CsvTokens.EscapeCSV | src/lib/index.ts:146-157 | definition: a value without comma, quote or line break is unchanged; any other value is quoted with its quotes doubled; no line break is added |
| CsvTokens.Doubled | src/lib/index.ts:154 | doubling quotes adds only quotes |
| CsvTokens.EscapeAll | src/lib/index.ts:108-119 | definition: each cell is escaped on its own |
| CsvTokens.ScanQuoted | src/lib/index.ts:204-213 | inside quotes, the doubled-quote text of `x` and then a closing quote reads back as `x` |
| CsvTokens.ScanEscaped | src/lib/index.ts:146-157 | an escaped field read up to the next comma is the original field |
| CsvTokens.ScanJoin | src/lib/index.ts:201-227 | the character loop over a comma-join of escaped fields appends exactly those fields to the row |
| CsvTokens.ScanLineOfEscaped | src/lib/index.ts:196-227 | tokenizing a comma-join of escaped fields gives the fields back |
| CsvExport.Cells | src/lib/index.ts:108-119 | a session has one cell per expected header |
| CsvExport.CellsAt | src/lib/index.ts:108-119 | the cells are the ISO date, the type tag, the five pauses, the note and the two pulses, in header order |
| CsvExport.ExportLines | src/lib/index.ts:106-121 | one line per session |
| CsvExport.ExportLinesAt | src/lib/index.ts:106-121 | line `k` is the export of session `k` |
| CsvExport.ConvertSessionsToCSV | src/lib/index.ts:103-124 | the loop returns the header line, then one line per session in order, joined by line breaks |
| CsvExport.ExportEmpty | src/lib/index.ts:103-124 | exporting no sessions gives the header line alone |
| CsvExport.HeaderLineShape | src/lib/index.ts:168-179 | the headers need no escaping, and the header line is non-empty, trimmed and has no line break |
| CsvExport.ExportLineShape | src/lib/index.ts:108-120 | for a note without a line break, a session's line is non-empty, trimmed and has no line break |
| CsvExport.ExportTextLines | src/lib/index.ts:103-124 | splitting an export at line breaks gives the header line and the session lines back |
| CsvExport.ExportTextTrimmed | src/lib/index.ts:123 | trimming an export changes nothing |
| CsvExport.LastExportLine | src/lib/index.ts:123 | the last line of an export is non-empty and trimmed |
| CsvImport.ParseNumber | src/lib/index.ts:306-309 | definition: a cell is `parseFloat` of its trimmed text, or 0 when that is not a number |
| CsvImport.IsoDate | src/lib/index.ts:289-303 | definition: the date-time cell is parsed as a date; an empty or invalid cell gives "now" |
| CsvImport.FirstSome | src/lib/index.ts:260-280 | the first attempt that gives a date wins, and when none does the fallback is used |
| CsvImport.LegacyDateFirstSuccess | src/lib/index.ts:255-286 | a missing date or time gives "now"; otherwise the result is the first of `date T time`, `date time`, the locale parser and the date alone, else "now" |
| CsvImport.ParseCSVRow | src/lib/index.ts:233-384 | a row gives an error exactly when it has neither 10 nor 11 columns, and that error is the column-count message; any other row gives a session whose id is drawn from its date |
| CsvImport.TenColumnsReadAsV2 | src/lib/index.ts:332-342 | a 10-column row is read in the legacy-v2 layout: one date-time cell, type `classical`, numbers from cells 1-5, 8 and 9, the note from cell 6 |
| CsvImport.ElevenColumnsReadAsV1 | src/lib/index.ts:321-331 | an 11-column row is read in the legacy-v1 layout: separate date and time, type `classical`, numbers from cells 2-6, 9 and 10, the note from cell 7 |
| CsvImport.RowErrorDependsOnlyOnWidth | src/lib/index.ts:241-250 | whether a row is rejected depends only on its number of columns |
| CsvImport.RowResults | src/lib/index.ts:419-420 | the decoded data rows are one per row after the header |
| CsvImport.RowResultsAt | src/lib/index.ts:419-420 | result `k` is the decoding of row `k + 1`, with row index `k + 1` |
| CsvImport.RowResultsSnoc | src/lib/index.ts:419-428 | decoding one more row appends exactly that row's result to the results so far |
| CsvImport.RowResultsDecided | src/lib/index.ts:420-427 | every decoded row has either an error or a session |
| CsvImport.CountSnoc | src/lib/index.ts:422-427 | definition: an error is recorded and counted as skipped; otherwise the session is kept |
| CsvImport.ValidateAndParseCSV | src/lib/index.ts:386-448 | the method returns the result of the empty check, the header check and the row loop |
| CsvImport.CountTotals | src/lib/index.ts:419-428 | skipped rows equal recorded errors, and sessions plus skipped rows equal data rows |
| CsvImport.CountInOrder | src/lib/index.ts:419-428 | for any mix of results, the errors and the sessions the loop collects are those of the results read first to last |
| CsvImport.EmptyFile | src/lib/index.ts:394-401 | an empty or all-white-space file gives the single error "CSV file is empty", is invalid, and has no sessions |
| CsvImport.HeaderMismatch | src/lib/index.ts:404-416 | rejected headers give exactly three errors, no sessions, no skipped rows and an invalid result |
| CsvImport.BatchAccounting | src/lib/index.ts:418-437 | for accepted headers, skipped rows equal errors, sessions plus skipped rows equal data rows, and the result is valid exactly when a session was read or there are no data rows |
| CsvImport.RowsInOrder | src/lib/index.ts:418-437 | with accepted headers, the sessions are the decodings of the 10- and 11-column rows and the errors the column-count messages of the other rows, each in row order |
| CsvImport.SuffixInOrder | src/lib/index.ts:419-428 | the results from row `j + 1` on hold the sessions of that suffix's 10- and 11-column rows and the column-count messages of its other rows, in row order |
| CsvImport.SessionsInOrder | src/lib/index.ts:419-428 | the sessions the loop collects over all data rows are those of the 10- and 11-column rows, in row order |
| CsvImport.ErrorsInOrder | src/lib/index.ts:419-428 | the errors the loop collects over all data rows are the column-count messages of the other rows, in row order |
| CsvImport.CountAllSessions | src/lib/index.ts:419-428 | when every result is a session, the loop keeps all of them in order and records no error and no skipped row |
| CsvImport.WideRowsInOrder | src/lib/index.ts:418-437 | when every data row has 10 or 11 columns, nothing is skipped and session `k` is the decoding of row `k + 1` |
| CsvRoundTrip.ExportLineTokens | src/lib/index.ts:188-231 | the tokenizer reads a session's line back as its cells |
| CsvRoundTrip.HeaderLineTokens | src/lib/index.ts:188-231 | the tokenizer reads the header line back as the headers |
| CsvRoundTrip.HeaderRows | src/lib/index.ts:188-231 | the header line alone tokenizes to the single row of headers |
| CsvRoundTrip.ExportLinesTokens | src/lib/index.ts:188-231 | when no note holds a line break, the session lines tokenize to the sessions' cells, in order |
| CsvRoundTrip.TokenizeExport | src/lib/index.ts:188-231 | tokenizing an export gives the headers, then each session's cells in order |
| CsvRoundTrip.HeadersAccepted | src/lib/index.ts:450-457 | the exported headers pass the header check |
| CsvRoundTrip.DateCellReads | src/lib/index.ts:289-292 | the exported date cell reads back as the session's instant |
| CsvRoundTrip.TypeCellReads | src/lib/index.ts:306-309 | the exported type tag reads as the number 0 |
| CsvRoundTrip.NumberCellReads | src/lib/index.ts:306-309 | an exported number needs no trimming and reads back as itself |
| CsvRoundTrip.DecodeCells | src/lib/index.ts:233-384 | decoding a session's cells gives the session shifted one column as `Reimported` describes |
| CsvRoundTrip.ExportedRowDecodes | src/lib/index.ts:419-420 | each data row of an export decodes without error to the shifted session |
| CsvRoundTrip.ExportThenImport | src/lib/index.ts:386-448 | importing an export is valid, has no errors or skipped rows, and gives one shifted session per exported session, in order |
| CsvRoundTrip.RoundTripLosesControlPause | src/lib/index.ts:332-342 | a session with a non-zero first control pause comes back with 0 there, so it is not the same session |
| Storage.Or | src/lib/breathingStorage.ts:232-242 | definition: `a \|\| b` gives `a` when it is truthy and `b` otherwise |
| Storage.SessionShapeIsCurrent | src/lib/breathingStorage.ts:326-334 | a record with exactly the eleven session properties does not need migration |
| Storage.DateToUse | src/lib/breathingStorage.ts:225-229 | definition: the date comes from a truthy `startTime`, else from a truthy `date`, else it is "now" |
| Storage.MigrateOldRecord | src/lib/breathingStorage.ts:224-246 | a converted record has exactly the eleven session properties |
| Storage.MigratedIsCurrent | src/lib/breathingStorage.ts:326-334 | a converted record no longer needs migration |
| Storage.MigratedNumbers | src/lib/breathingStorage.ts:232-242 | each numeric property keeps a truthy value and becomes 0 otherwise |
| Storage.MigratedText | src/lib/breathingStorage.ts:225-240 | the note and the type keep truthy values, else become `''` and `'classical'`; the id is copied; the date is the one chosen above |
| Storage.MigrateIdempotent | src/lib/breathingStorage.ts:224-246 | converting a converted record again changes nothing, given that `new Date(d)` of a `Date` keeps its instant |
| Storage.ReadRecord | src/lib/breathingStorage.ts:35-37 | a record is read unchanged when it is current, and converted when it needs migration |
| Storage.ReadIsCurrent | src/lib/breathingStorage.ts:35-37 | whatever was stored, what is read is in the current format |
| Storage.SerializeSession | src/lib/breathingStorage.ts:189-201 | the copy made before `store.put` equals the session |
| Storage.SessionRecord | src/lib/breathingStorage.ts:4-16 | a stored session has exactly the eleven session properties |
| Storage.StoredSessionReadsBack | src/lib/breathingStorage.ts:35-37 | a stored session reads back unchanged |
| Storage.Version3Record | src/lib/breathingStorage.ts:275-278 | the version 3 step adds `note = ''` only when the property is absent |
| Storage.Version4Record | src/lib/breathingStorage.ts:298-309 | after the version 4 step the type is present and `personalBest` is gone |
| Storage.Version4KeepsOthers | src/lib/breathingStorage.ts:298-309 | the version 4 step leaves every other property alone, keeps an existing type and adds `'classical'` for a missing one |
| Storage.StepsIdempotent | src/lib/breathingStorage.ts:275-309 | running the version 3 or 4 step twice gives what running it once gives |
| Storage.CursorRecord.MigrateToVersion2 | src/lib/breathingStorage.ts:254-258 | the record is written back exactly when it needs migration, and becomes what reading it gives |
| Storage.CursorRecord.MigrateToVersion3 | src/lib/breathingStorage.ts:274-278 | the record is written back exactly when it has no note, and becomes the version 3 record |
| Storage.CursorRecord.MigrateToVersion4 | src/lib/breathingStorage.ts:297-312 | the record is written back exactly when it had no type or had a personal best, and becomes the version 4 record |
| Storage.UpgradeSteps | src/lib/breathingStorage.ts:157-176 | an upgrade runs at least the store step |
| Storage.UpgradeOrder | src/lib/breathingStorage.ts:157-176 | the store is created (from version 0) or opened first; each migration runs exactly when the old version is below its own, in version order |
| Storage.CurrentNeedsNoMigration | src/lib/breathingStorage.ts:157-176 | a database already at version 4 runs no migration |
| Storage.UpgradeStoredRecord | src/lib/breathingStorage.ts:166-176 | each step runs on its own copy of the record as it was before the upgrade, and the last step that writes decides what is stored |
| Storage.UpgradedRecord | src/lib/breathingStorage.ts:166-176 | after an upgrade every record has a type and no personal best, and what is stored is the version 4 copy whenever that step writes; without that write a record from version 2 or below has a note, and without the version 3 and 4 writes one from version 1 is current; every stored record reads back current |
| Storage.UpgradeOverwritesEarlierSteps | src/lib/breathingStorage.ts:166-176 | a later write replaces an earlier one: a version 2 record without note and type is stored without a note, and a version 1 record with a `startTime` still needs converting |
| Stats.Insert | src/lib/stats.ts:3 | one insertion step adds exactly the one value to the list |
| Stats.InsertSorted | src/lib/stats.ts:3 | inserting into an ascending list keeps it ascending |
| Stats.SortedCopy | src/lib/stats.ts:3 | the sorted copy is ascending and a permutation of the input |
| Stats.SortedUnique | src/lib/stats.ts:3 | two ascending arrangements of the same values are equal |
| Stats.SortedCopyOfPermutation | src/lib/stats.ts:3 | any ascending permutation of the values is the sorted copy |
| Stats.Minimum | src/lib/stats.ts:3 | the minimum is one of the values and no value is smaller |
| Stats.Maximum | src/lib/stats.ts:3 | the maximum is one of the values and no value is larger |
| Stats.SortedEnds | src/lib/stats.ts:3 | an ascending arrangement starts with the minimum and ends with the maximum |
| Stats.MedianOfSorted | src/lib/stats.ts:1-8 | for an odd count the median is the middle value of any ascending arrangement; for an even count it is the mean of the two middle values rounded half up |
| Stats.MedianSmall | src/lib/stats.ts:2 | the median of no values is 0 and of one value is that value |
| Stats.MedianBounds | src/lib/stats.ts:1-8 | the median lies between the minimum and the maximum |
| Stats.MedianOrderIndependent | src/lib/stats.ts:3 | reordering the input does not change the median |
| Stats.InterpolateBetween | src/lib/stats.ts:17-18 | a rounded interpolation between two ordered values lies between them |
| Stats.PercentileAtPosition | src/lib/stats.ts:13-18 | a whole position reads the value there; a position between two indices interpolates their values by its fractional part |
| Stats.PercentileAtIndex | src/lib/stats.ts:13-16 | when `p/100 * (n-1)` is a whole index, the percentile is the value at that index of any ascending arrangement |
| Stats.PercentileBetween | src/lib/stats.ts:13-18 | otherwise it is the rounded interpolation between the two neighbouring values |
| Stats.PercentileMin | src/lib/stats.ts:13-16 | the 0th percentile is the minimum |
| Stats.PercentileMax | src/lib/stats.ts:13-16 | the 100th percentile is the maximum |
| Stats.PercentileSmall | src/lib/stats.ts:11-16 | every percentile of no values is 0, and of one value is that value |
| Stats.PercentileBounds | src/lib/stats.ts:10-19 | for `p` from 0 to 100 the percentile is a number between the minimum and the maximum |
| Stats.PercentileOutOfRange | src/lib/stats.ts:13-18 | with two or more values, a `p` below 0 or above 100 gives no number |
| Stats.PercentileAtOutside | src/lib/stats.ts:13-15 | a position below the first or beyond the last index of two or more values reads no number |
| Stats.PercentileOrderIndependent | src/lib/stats.ts:12 | reordering the input does not change any percentile |
| Exercises.LogAt | src/lib/exercises/classical.ts:137 | definition: `log[i] ?? 0` is the entry when present and 0 past the end |
| Exercises.LoggedStages | src/lib/exercises/classical.ts:88-133 | the filtered stages are exactly the logged stages of the layout |
| Exercises.LoggedAppend | src/lib/exercises/classical.ts:88-133 | filtering a concatenation filters each part |
| Exercises.ClassicalLayoutShape | src/lib/exercises/classical.ts:88-133 | the classical layout has 20 stages, from `start` to `finished`, and logs seven numbers: pulse, control pause, three maximum pauses, control pause and pulse |
| Exercises.ClassicalMapping | src/lib/exercises/classical.ts:135-149 | the n-th logged number goes into the n-th field of the logging order, 0 when missing; type `classical`, the given date, an empty note and the timestamp id; one slot per logged stage |
| Exercises.ClassicalIgnoresLater | src/lib/exercises/classical.ts:135-149 | entries after the seventh do not change the session |
| Exercises.DiminishedLayoutShape | src/lib/exercises/diminished.ts:90-102 | the diminished layout has 11 stages, from `start` to `finished`, and logs five numbers: pulse, control pause, middle control pause, pulse, control pause |
| Exercises.DiminishedMapping | src/lib/exercises/diminished.ts:104-118 | the five logged numbers go to pulse 1, control pause 1, maximum pause 1, pulse 2 and control pause 2; maximum pauses 2 and 3 are 0; type `diminished`; one slot per logged stage |
| Exercises.DiminishedIgnoresLater | src/lib/exercises/diminished.ts:104-118 | entries after the fifth do not change the session |
| Exercises.McpLayoutShape | src/lib/exercises/mcp.ts:36 | the mcp layout has three stages, from `start` to `finished`, and only the control pause is logged |
| Exercises.McpMapping | src/lib/exercises/mcp.ts:38-52 | the control pause is the first logged number, or 0 for an empty log; every other reading is 0; type `mcp`; later entries are ignored |
| Exercises.ConfigsMatch | src/lib/exercises/classical.ts:151-159 | each configuration has its own type and name (`'Morning CP'` for mcp), and its mapper produces sessions of that type |

## Left out

- Numbers are integers. Floating-point values, `parseFloat` of fractions and float rounding in `percentile` are not modelled, and the percentile position is computed exactly.
- `String(number)`, `parseFloat`, `new Date(string)`, `toISOString` and the local-time `Date` constructor are parameters. Their behaviour beyond `Sessions.Faithful` is not modelled.
- The clock and `Math.random` are parameters.
- The `try`/`catch` branches of `parseCSVRow` and `validateAndParseCSV` are left out: nothing in the modelled code throws.
- `console.warn` and `console.error` calls are left out, because they only log.
- A session's date is always a valid instant that `toISOString` can print. An Invalid Date, which `migrateOldRecord` makes from an unparseable `startTime` or `date`, and the `RangeError` that `toISOString` then throws in `convertSessionsToCSV` are not modelled. Neither is the `RangeError` for an instant beyond 8.64e15 ms, which `Sessions.Faithful` treats as printable.
- `escapeCSV` of a number is modelled as `escapeCSV` of `String(number)`.
- `toLowerCase` is modelled for ASCII letters only.
- The IndexedDB parts of `BreathingStorage` are not modelled: opening the database, transactions, `getAll`, index ranges, `put`/`add`, and the request callbacks. Each upgrade step is modelled on one record under its cursor, with the request order described above. The walk over all records is not modelled.
- `importSessions` and `saveOrUpdateSession` are modelled only as the field copy they store.
- `downloadCSV`, `getGravatarUrl`, `getOpenmojiUrl`, the date formatters, `convert24to12`, `getYear`, `getRandomElement`, `getRandomNumber` and `shuffled` are left out: they are I/O, platform formatting or trivial wrappers.
- The HTML instructions of the exercise stages are left out. Stages that differ only in their instructions are modelled as one value, such as the middle control pause of the diminished exercise.
- `src/lib/exercises/index.ts` is not part of this model.
- The tests in `src/lib/csv.test.ts` that describe a 13-column layout are not modelled, because that layout is not in the code.
- Utils.ParseLocaleDateString: a `parseInt` of more than 15 digits is read exactly, whereas JavaScript loses precision. Such a number is out of the accepted year, month and day ranges anyway.
