/**
 * The session record of src/lib/breathingStorage.ts, and the JavaScript
 * runtime services the core calls but whose behaviour belongs to the
 * platform (`Date` parsing and formatting, `parseFloat`).
 */
module Sessions {
  import opened Wrappers
  import opened Text

  datatype ExerciseType = Classical | Diminished | Mcp

  /** The string tag that stands for each exercise type in records and CSV cells. */
  function TypeName(t: ExerciseType): (name: string)
    ensures |name| > 0 && 'a' <= name[0] <= 'z'
  {
    match t
    case Classical => "classical"
    case Diminished => "diminished"
    case Mcp => "mcp"
  }

  lemma TypeNameInjective(a: ExerciseType, b: ExerciseType)
    ensures TypeName(a) == TypeName(b) <==> a == b
  {
  }

  /** A `Date` is represented by its instant (milliseconds since the epoch, as `getTime()`). */
  type Instant = int

  /** One completed exercise. Numbers are integers. */
  datatype BreathingSession = BreathingSession(
    controlPause1: int,
    controlPause2: int,
    date: Instant,
    exerciseType: ExerciseType,
    id: string,
    maxPause1: int,
    maxPause2: int,
    maxPause3: int,
    note: string,
    pulse1: int,
    pulse2: int)

  /** A draw of the random suffix of an id: `Math.floor(Math.random() * 1000)`. */
  type Draw = r: int | 0 <= r < 1000

  /**
   * The platform calls whose results the core only passes on:
   * - `parseDate(s)` is `new Date(s).getTime()`, `None` for an Invalid Date;
   * - `toISO(t)` is `new Date(t).toISOString()`;
   * - `showNum(n)` is `String(n)` of a stored number, as `escapeCSV` renders it;
   * - `parseNum(s)` is `parseFloat(s)`, `None` for `NaN`;
   * - `localDate(y, m, d, h, mi, s)` is `new Date(y, m, d, h, mi, s).getTime()`
   *   (month counted from 0, the zone of the device), `None` for an Invalid Date.
   */
  datatype Runtime = Runtime(
    parseDate: string -> Option<Instant>,
    toISO: Instant -> string,
    showNum: int -> string,
    parseNum: string -> Option<int>,
    localDate: (int, int, int, int, int, int) -> Option<Instant>)

  /** Characters an ISO-8601 timestamp such as `2025-07-23T14:30:45.123Z` is made of. */
  predicate IsIsoChar(c: char) {
    ('0' <= c <= '9') || c == '-' || c == '+' || c == ':' || c == '.' || c == 'T' || c == 'Z'
  }

  /** Characters of the decimal rendering of an integer. */
  predicate IsNumeralChar(c: char) {
    ('0' <= c <= '9') || c == '-'
  }

  /**
   * What the export/import lemmas take for granted of the runtime, each a
   * documented property of JavaScript: `toISOString` yields a non-empty
   * string of ISO characters that `new Date` reads back to the same instant;
   * `String(n)` of an integer is a non-empty string of digits and minus
   * signs that `parseFloat` reads back to `n`; `parseFloat` gives `NaN` on a
   * string that starts with a lower-case letter (`parseFloat("classical")`).
   */
  ghost predicate Faithful(rt: Runtime) {
    && (forall t :: |rt.toISO(t)| > 0)
    && (forall t, i :: 0 <= i < |rt.toISO(t)| ==> IsIsoChar(rt.toISO(t)[i]))
    && (forall t :: rt.parseDate(rt.toISO(t)) == Some(t))
    && (forall n :: |rt.showNum(n)| > 0)
    && (forall n, i :: 0 <= i < |rt.showNum(n)| ==> IsNumeralChar(rt.showNum(n)[i]))
    && (forall n :: rt.parseNum(rt.showNum(n)) == Some(n))
    && (forall s :: |s| > 0 && 'a' <= s[0] <= 'z' ==> rt.parseNum(s) == None)
  }
}
