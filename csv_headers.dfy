/**
 * The header rows of the CSV files of src/lib/index.ts: the columns written
 * on export (`EXPECTED_CSV_HEADERS`) and `validateCSVHeaders`, which also
 * accepts the two legacy layouts.
 */
module CsvHeaders {
  import opened Text

  // --------------------------------------------------------------- headers

  /** `EXPECTED_CSV_HEADERS`, the columns written on export. */
  const ExpectedHeaders: seq<string> := [
    "DateTime", "Exercise Type", "Control Pause 1", "Max Pause 1", "Max Pause 2",
    "Max Pause 3", "Control Pause 2", "Note", "Pulse 1", "Pulse 2"]

  /** The 11 columns of the first legacy format: separate date and time. */
  const LegacyV1Headers: seq<string> := [
    "Date", "Time", "Control Pause 1", "Max Pause 1", "Max Pause 2", "Max Pause 3",
    "Control Pause 2", "Note", "Personal Best MP3", "Pulse 1", "Pulse 2"]

  /** The 10 columns of the second legacy format: no exercise type, a personal best. */
  const LegacyV2Headers: seq<string> := [
    "DateTime", "Control Pause 1", "Max Pause 1", "Max Pause 2", "Max Pause 3",
    "Control Pause 2", "Note", "Personal Best MP3", "Pulse 1", "Pulse 2"]

  /** The trimmed headers equal `expected` position by position. */
  predicate TrimEqualTo(headers: seq<string>, expected: seq<string>) {
    |headers| == |expected| && forall i :: 0 <= i < |headers| ==> Trim(headers[i]) == expected[i]
  }

  /** `headers.every((header, index) => header.trim() === expected[index])`. */
  function Every(headers: seq<string>, expected: seq<string>): (ok: bool)
    requires |headers| == |expected|
    ensures ok <==> TrimEqualTo(headers, expected)
  {
    if headers == [] then true
    else Trim(headers[0]) == expected[0] && Every(headers[1..], expected[1..])
  }

  /** `validateCSVHeaders`: the current format, then legacy v1, then legacy v2. */
  function ValidateCSVHeaders(headers: seq<string>): (ok: bool)
    ensures ok <==> TrimEqualTo(headers, ExpectedHeaders) || TrimEqualTo(headers, LegacyV1Headers)
                    || TrimEqualTo(headers, LegacyV2Headers)
    ensures |headers| != 10 && |headers| != 11 ==> !ok
  {
    (|headers| == |ExpectedHeaders| && Every(headers, ExpectedHeaders))
    || (|headers| == 11 && Every(headers, LegacyV1Headers))
    || (|headers| == 10 && Every(headers, LegacyV2Headers))
  }
}
