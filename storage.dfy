/**
 * The record-level logic of src/lib/breathingStorage.ts: stored records are
 * plain JavaScript objects, so they are modelled as maps from property names
 * to JavaScript values. This covers the check for records in an old format,
 * the conversion of such a record, the per-record steps of the version 3
 * and version 4 upgrades, the field copy made before a session is stored,
 * and the order in which `init` runs the upgrade steps.
 */
module Storage {
  import opened Wrappers
  import opened Sessions

  /** The JavaScript values a stored record holds. A `Date` object carries
      its instant, `None` for an Invalid Date; numbers are integers. */
  datatype JsValue = Undefined | Null | Bool(b: bool) | Num(n: int) | NaN | Str(s: string) | Date(time: Option<Instant>)

  /** JavaScript truthiness: `undefined`, `null`, `false`, `0`, `NaN` and `''`
      are falsy; every other value, any `Date` among them, is truthy. */
  predicate Truthy(v: JsValue) {
    match v
    case Undefined => false
    case Null => false
    case Bool(b) => b
    case Num(n) => n != 0
    case NaN => false
    case Str(s) => s != ""
    case Date(_) => true
  }

  /** `a || b`: the left operand when it is truthy, otherwise the right one. */
  function Or(a: JsValue, b: JsValue): (r: JsValue)
    ensures Truthy(a) ==> r == a
    ensures !Truthy(a) ==> r == b
  {
    if Truthy(a) then a else b
  }

  /** An object's own properties. */
  type Record = map<string, JsValue>

  /** Reading `record.key`: `undefined` when the property is absent. */
  function Get(record: Record, key: string): JsValue {
    if key in record then record[key] else Undefined
  }

  /** The eleven properties of a `BreathingSession`. */
  const SessionKeys: set<string> := {
    "controlPause1", "controlPause2", "date", "exerciseType", "id", "maxPause1",
    "maxPause2", "maxPause3", "note", "pulse1", "pulse2"}

  /** The numeric properties, which the conversion defaults to 0. */
  const NumberKeys: set<string> := {
    "controlPause1", "controlPause2", "maxPause1", "maxPause2", "maxPause3", "pulse1", "pulse2"}

  // ------------------------------------------------------ old-format records

  /** `needsMigration`: the record still has the old `startTime`, or lacks one
      of the properties later versions added. */
  predicate NeedsMigration(record: Record) {
    || "startTime" in record
    || "pulse1" !in record
    || "pulse2" !in record
    || "note" !in record
    || "exerciseType" !in record
  }

  /** A record with exactly the session properties is in the current format. */
  lemma SessionShapeIsCurrent(record: Record)
    requires record.Keys == SessionKeys
    ensures !NeedsMigration(record)
  {
    assert "pulse1" in SessionKeys && "pulse2" in SessionKeys;
    assert "note" in SessionKeys && "exerciseType" in SessionKeys;
    assert "startTime" !in SessionKeys;
  }

  /** The date `migrateOldRecord` gives the record: `new Date(startTime)` when
      `startTime` is truthy, else `new Date(date)` when `date` is truthy, else
      `new Date()`. `newDate(v)` is the instant of `new Date(v)`. */
  function DateToUse(stored: Record, newDate: JsValue -> Option<Instant>, now: Instant): (d: JsValue)
    ensures Truthy(Get(stored, "startTime")) ==> d == Date(newDate(Get(stored, "startTime")))
    ensures !Truthy(Get(stored, "startTime")) && Truthy(Get(stored, "date")) ==> d == Date(newDate(Get(stored, "date")))
    ensures !Truthy(Get(stored, "startTime")) && !Truthy(Get(stored, "date")) ==> d == Date(Some(now))
  {
    if Truthy(Get(stored, "startTime")) then Date(newDate(Get(stored, "startTime")))
    else if Truthy(Get(stored, "date")) then Date(newDate(Get(stored, "date")))
    else Date(Some(now))
  }

  /** The value `migrateOldRecord` gives the session property `key`. */
  function MigratedValue(stored: Record, key: string, newDate: JsValue -> Option<Instant>, now: Instant): JsValue {
    if key == "date" then DateToUse(stored, newDate, now)
    else if key == "id" then Get(stored, "id")
    else if key == "note" then Or(Get(stored, "note"), Str(""))
    else if key == "exerciseType" then Or(Get(stored, "exerciseType"), Str("classical"))
    else Or(Get(stored, key), Num(0))
  }

  /** `migrateOldRecord`: a record with exactly the session properties, each
      falsy number replaced by 0, a falsy note by `''` and a falsy type by
      `'classical'`; the id is copied and `startTime` is gone. */
  function MigrateOldRecord(stored: Record, newDate: JsValue -> Option<Instant>, now: Instant): (r: Record)
    ensures r.Keys == SessionKeys
  {
    map key | key in SessionKeys :: MigratedValue(stored, key, newDate, now)
  }

  /** A converted record no longer needs converting. */
  lemma MigratedIsCurrent(stored: Record, newDate: JsValue -> Option<Instant>, now: Instant)
    ensures !NeedsMigration(MigrateOldRecord(stored, newDate, now))
  {
    SessionShapeIsCurrent(MigrateOldRecord(stored, newDate, now));
  }

  /** Every numeric property keeps a truthy value and becomes 0 otherwise. */
  lemma MigratedNumbers(stored: Record, newDate: JsValue -> Option<Instant>, now: Instant, key: string)
    requires key in NumberKeys
    ensures var r := MigrateOldRecord(stored, newDate, now);
      && key in r
      && (Truthy(Get(stored, key)) ==> r[key] == Get(stored, key))
      && (!Truthy(Get(stored, key)) ==> r[key] == Num(0))
  {
  }

  /** The note and the type keep truthy values and default to `''` and
      `'classical'`; the id is copied whatever it is. */
  lemma MigratedText(stored: Record, newDate: JsValue -> Option<Instant>, now: Instant)
    ensures var r := MigrateOldRecord(stored, newDate, now);
      && (Truthy(Get(stored, "note")) ==> r["note"] == Get(stored, "note"))
      && (!Truthy(Get(stored, "note")) ==> r["note"] == Str(""))
      && (Truthy(Get(stored, "exerciseType")) ==> r["exerciseType"] == Get(stored, "exerciseType"))
      && (!Truthy(Get(stored, "exerciseType")) ==> r["exerciseType"] == Str("classical"))
      && r["id"] == Get(stored, "id")
      && r["date"] == DateToUse(stored, newDate, now)
  {
  }

  /** `new Date(d)` of a `Date` object `d` has the instant of `d`. */
  ghost predicate CopiesDates(newDate: JsValue -> Option<Instant>) {
    forall t :: newDate(Date(t)) == t
  }

  /** Converting twice gives what converting once gives (with the same clock). */
  lemma MigrateIdempotent(stored: Record, newDate: JsValue -> Option<Instant>, now: Instant)
    requires CopiesDates(newDate)
    ensures var once := MigrateOldRecord(stored, newDate, now);
      MigrateOldRecord(once, newDate, now) == once
  {
    var once := MigrateOldRecord(stored, newDate, now);
    var twice := MigrateOldRecord(once, newDate, now);
    forall key | key in SessionKeys ensures twice[key] == once[key] {
      MigratedValueStable(stored, newDate, now, key);
    }
  }

  /** Each converted property converts to itself. */
  lemma MigratedValueStable(stored: Record, newDate: JsValue -> Option<Instant>, now: Instant, key: string)
    requires CopiesDates(newDate) && key in SessionKeys
    ensures var once := MigrateOldRecord(stored, newDate, now);
      MigratedValue(once, key, newDate, now) == once[key]
  {
    var once := MigrateOldRecord(stored, newDate, now);
    assert "startTime" !in once;
    var d := DateToUse(stored, newDate, now);
    assert once["date"] == d && d.Date?;
    assert newDate(d) == d.time;
  }

  /** How `getAllSessions` and `getSessionsByDate` read a stored record. */
  function ReadRecord(record: Record, newDate: JsValue -> Option<Instant>, now: Instant): (r: Record)
    ensures !NeedsMigration(record) ==> r == record
    ensures NeedsMigration(record) ==> r == MigrateOldRecord(record, newDate, now)
  {
    if NeedsMigration(record) then MigrateOldRecord(record, newDate, now) else record
  }

  /** Whatever was stored, what is read is in the current format. */
  lemma ReadIsCurrent(record: Record, newDate: JsValue -> Option<Instant>, now: Instant)
    ensures !NeedsMigration(ReadRecord(record, newDate, now))
  {
    if NeedsMigration(record) {
      MigratedIsCurrent(record, newDate, now);
    }
  }

  // ------------------------------------------------------- storing sessions

  /** The object literal `importSessions` and `saveOrUpdateSession` build
      from a session before `store.put`: each field copied, the date through
      `new Date(session.date)`. */
  function SerializeSession(session: BreathingSession): (copy: BreathingSession)
    ensures copy == session
  {
    BreathingSession(
      controlPause1 := session.controlPause1, controlPause2 := session.controlPause2,
      date := session.date, exerciseType := session.exerciseType, id := session.id,
      maxPause1 := session.maxPause1, maxPause2 := session.maxPause2, maxPause3 := session.maxPause3,
      note := session.note, pulse1 := session.pulse1, pulse2 := session.pulse2)
  }

  /** The stored form of a session. */
  function SessionRecord(session: BreathingSession): (r: Record)
    ensures r.Keys == SessionKeys
  {
    map[
      "controlPause1" := Num(session.controlPause1), "controlPause2" := Num(session.controlPause2),
      "date" := Date(Some(session.date)), "exerciseType" := Str(TypeName(session.exerciseType)),
      "id" := Str(session.id), "maxPause1" := Num(session.maxPause1), "maxPause2" := Num(session.maxPause2),
      "maxPause3" := Num(session.maxPause3), "note" := Str(session.note), "pulse1" := Num(session.pulse1),
      "pulse2" := Num(session.pulse2)]
  }

  /** A session that was stored reads back unchanged. */
  lemma StoredSessionReadsBack(session: BreathingSession, newDate: JsValue -> Option<Instant>, now: Instant)
    ensures ReadRecord(SessionRecord(SerializeSession(session)), newDate, now) == SessionRecord(session)
  {
    SessionShapeIsCurrent(SessionRecord(session));
  }

  // ----------------------------------------------------- upgrade record steps

  /** The version 3 step on its own: `note` is added as `''` when absent. */
  function Version3Record(record: Record): (r: Record)
    ensures "note" in r
    ensures "note" !in record ==> r == record["note" := Str("")]
    ensures "note" in record ==> r == record
  {
    if "note" !in record then record["note" := Or(Get(record, "note"), Str(""))] else record
  }

  /** The version 4 step on its own: `exerciseType` is added as `'classical'`
      when absent, and `personalBest` is removed. */
  function Version4Record(record: Record): (r: Record)
    ensures "exerciseType" in r && "personalBest" !in r
  {
    var typed := if "exerciseType" !in record then record["exerciseType" := Str("classical")] else record;
    if "personalBest" in typed then typed - {"personalBest"} else typed
  }

  /** The version 4 step keeps every other property, keeps an existing type,
      and gives a missing one the value `'classical'`. */
  lemma Version4KeepsOthers(record: Record)
    ensures var r := Version4Record(record);
      && (forall key :: key != "exerciseType" && key != "personalBest" ==>
            (key in r <==> key in record) && (key in record ==> r[key] == record[key]))
      && ("exerciseType" in record ==> r["exerciseType"] == record["exerciseType"])
      && ("exerciseType" !in record ==> r["exerciseType"] == Str("classical"))
  {
  }

  /** Both steps change nothing on a record that already has what they add. */
  lemma StepsIdempotent(record: Record)
    ensures Version3Record(Version3Record(record)) == Version3Record(record)
    ensures Version4Record(Version4Record(record)) == Version4Record(record)
  {
  }

  /** A record under the cursor of an upgrade step. The steps change the
      object in place and report whether they wrote it back (`cursor.update`). */
  class CursorRecord {
    var fields: Record

    constructor (fields: Record)
      ensures this.fields == fields
    {
      this.fields := fields;
    }

    /** The record step of `migrateToVersion2Sync`. */
    method MigrateToVersion2(newDate: JsValue -> Option<Instant>, now: Instant) returns (written: bool)
      modifies this
      ensures written == NeedsMigration(old(fields))
      ensures fields == ReadRecord(old(fields), newDate, now)
    {
      written := false;
      if NeedsMigration(fields) {
        fields := MigrateOldRecord(fields, newDate, now);
        written := true;
      }
    }

    /** The record step of `migrateToVersion3Sync`. */
    method MigrateToVersion3() returns (written: bool)
      modifies this
      ensures written == ("note" !in old(fields))
      ensures fields == Version3Record(old(fields))
    {
      written := false;
      if "note" !in fields {
        fields := fields["note" := Or(Get(fields, "note"), Str(""))];
        written := true;
      }
    }

    /** The record step of `migrateToVersion4Sync`. */
    method MigrateToVersion4() returns (written: bool)
      modifies this
      ensures written == ("exerciseType" !in old(fields) || "personalBest" in old(fields))
      ensures fields == Version4Record(old(fields))
    {
      var needsUpdate := false;
      if "exerciseType" !in fields {
        fields := fields["exerciseType" := Str("classical")];
        needsUpdate := true;
      }
      if "personalBest" in fields {
        fields := fields - {"personalBest"};
        needsUpdate := true;
      }
      written := needsUpdate;
    }
  }

  // ------------------------------------------------------------- upgrades

  /** The database version `BreathingStorage` opens. */
  const CurrentVersion: nat := 4

  datatype UpgradeStep = CreateStore | OpenStore | ToVersion2 | ToVersion3 | ToVersion4

  /** The position of a step in `onupgradeneeded`. */
  function Rank(step: UpgradeStep): nat {
    match step
    case CreateStore => 0
    case OpenStore => 0
    case ToVersion2 => 1
    case ToVersion3 => 2
    case ToVersion4 => 3
  }

  /** The steps `onupgradeneeded` runs for a database at `oldVersion`: the
      store is created (from nothing) or opened, then each migration whose
      version is above the old one. */
  function UpgradeSteps(oldVersion: nat): (steps: seq<UpgradeStep>)
    ensures |steps| >= 1
  {
    [if oldVersion < 1 then CreateStore else OpenStore]
    + (if oldVersion < 2 then [ToVersion2] else [])
    + (if oldVersion < 3 then [ToVersion3] else [])
    + (if oldVersion < 4 then [ToVersion4] else [])
  }

  /** Each migration runs exactly when the old version is below its own, the
      store comes first, and the steps run in version order. */
  lemma UpgradeOrder(oldVersion: nat)
    ensures var steps := UpgradeSteps(oldVersion);
      && steps[0] == (if oldVersion < 1 then CreateStore else OpenStore)
      && (ToVersion2 in steps <==> oldVersion < 2)
      && (ToVersion3 in steps <==> oldVersion < 3)
      && (ToVersion4 in steps <==> oldVersion < 4)
      && CreateStore !in steps[1..] && OpenStore !in steps[1..]
      && forall i, j :: 0 <= i < j < |steps| ==> Rank(steps[i]) < Rank(steps[j])
  {
  }

  /** An up-to-date database runs no migration. */
  lemma CurrentNeedsNoMigration(oldVersion: nat)
    requires oldVersion >= CurrentVersion
    ensures UpgradeSteps(oldVersion) == [OpenStore]
  {
  }

  /** The version 2 step writes a record that needs converting. */
  predicate Version2Writes(record: Record) {
    NeedsMigration(record)
  }

  /** The version 3 step writes a record without a note. */
  predicate Version3Writes(record: Record) {
    "note" !in record
  }

  /** The version 4 step writes a record without a type or with a personal best. */
  predicate Version4Writes(record: Record) {
    "exerciseType" !in record || "personalBest" in record
  }

  /** What an upgrade from `oldVersion` leaves in the store for a record.
      `onupgradeneeded` opens the cursor of every step before any step has
      updated anything, and a transaction serves its requests in the order
      they were made. So every step reads the record as it was before the
      upgrade, the updates land in step order, and the last step that
      writes decides what is stored. */
  function UpgradeRecord(oldVersion: nat, record: Record, newDate: JsValue -> Option<Instant>, now: Instant): Record {
    if oldVersion < 4 && Version4Writes(record) then Version4Record(record)
    else if oldVersion < 3 && Version3Writes(record) then Version3Record(record)
    else if oldVersion < 2 && Version2Writes(record) then MigrateOldRecord(record, newDate, now)
    else record
  }

  /** One record through the upgrade: each step runs on its own cursor's copy
      of the original record, and a step that writes replaces the stored
      record with its copy. */
  method UpgradeStoredRecord(oldVersion: nat, record: Record, newDate: JsValue -> Option<Instant>, now: Instant)
    returns (stored: Record)
    ensures stored == UpgradeRecord(oldVersion, record, newDate, now)
  {
    stored := record;
    if oldVersion < 2 {
      var cursor := new CursorRecord(record);
      var written := cursor.MigrateToVersion2(newDate, now);
      if written {
        stored := cursor.fields;
      }
    }
    if oldVersion < 3 {
      var cursor := new CursorRecord(record);
      var written := cursor.MigrateToVersion3();
      if written {
        stored := cursor.fields;
      }
    }
    if oldVersion < 4 {
      var cursor := new CursorRecord(record);
      var written := cursor.MigrateToVersion4();
      if written {
        stored := cursor.fields;
      }
    }
  }

  /** After any upgrade every record has a type and no personal best. When
      the version 4 step writes, its copy is what is stored; when it does not,
      a record from version 2 or earlier has a note; when neither it nor the
      version 3 step writes, a record from version 1 is in the current format.
      Whatever is stored reads back in the current format. */
  lemma UpgradedRecord(oldVersion: nat, record: Record, newDate: JsValue -> Option<Instant>, now: Instant)
    requires oldVersion < CurrentVersion
    ensures var r := UpgradeRecord(oldVersion, record, newDate, now);
      && "exerciseType" in r && "personalBest" !in r
      && (Version4Writes(record) ==> r == Version4Record(record))
      && (!Version4Writes(record) && oldVersion < 3 ==> "note" in r)
      && (!Version4Writes(record) && !Version3Writes(record) && oldVersion < 2 ==> !NeedsMigration(r))
      && !NeedsMigration(ReadRecord(r, newDate, now))
  {
    var r := UpgradeRecord(oldVersion, record, newDate, now);
    if !Version4Writes(record) && !Version3Writes(record) && oldVersion < 2 && Version2Writes(record) {
      MigratedIsCurrent(record, newDate, now);
    }
    ReadIsCurrent(r, newDate, now);
  }

  /** The later steps overwrite the earlier ones: a version 2 record with
      neither a note nor a type is stored without a note, and a version 1
      record with a `startTime`, a note and no type keeps its `startTime`. */
  lemma UpgradeOverwritesEarlierSteps(newDate: JsValue -> Option<Instant>, now: Instant)
    ensures var early := map["id" := Str("1"), "pulse1" := Num(30), "pulse2" := Num(40)];
      "note" !in UpgradeRecord(2, early, newDate, now)
    ensures var old1 := map["id" := Str("1"), "startTime" := Num(1), "note" := Str("calm")];
      NeedsMigration(UpgradeRecord(1, old1, newDate, now))
  {
    var early := map["id" := Str("1"), "pulse1" := Num(30), "pulse2" := Num(40)];
    assert Version4Writes(early);
    var old1 := map["id" := Str("1"), "startTime" := Num(1), "note" := Str("calm")];
    assert Version4Writes(old1);
    assert "startTime" in Version4Record(old1);
  }
}
