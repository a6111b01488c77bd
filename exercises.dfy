/**
 * The three exercises of src/lib/exercises: each has a constant layout of
 * stages and a `mapLogToSession` that turns the numbers logged during the
 * exercise (one per logged stage, in order) into a session record.
 */
module Exercises {
  import opened Text
  import opened Sessions

  /** A stage of an exercise; its HTML instructions are not modelled. */
  datatype Stage = Stage(autoStart: bool, duration: nat, logged: bool, name: string, shortName: string)

  /** An exercise: its description, layout, log mapper, names and type. */
  datatype ExerciseConfig = ExerciseConfig(
    description: string,
    layout: seq<Stage>,
    mapLogToSession: (seq<int>, Instant) -> BreathingSession,
    name: string,
    shortName: string,
    exerciseType: ExerciseType)

  /** `log[i] ?? 0`: the logged number, or 0 past the end of the log. */
  function LogAt(log: seq<int>, i: nat): (v: int)
    ensures i < |log| ==> v == log[i]
    ensures i >= |log| ==> v == 0
  {
    if i < |log| then log[i] else 0
  }

  /** The stages that log a number, in order (`layout.filter((s) => s.logged)`). */
  function Logged(layout: seq<Stage>): (r: seq<Stage>)
    ensures |r| <= |layout|
  {
    if layout == [] then []
    else (if layout[0].logged then [layout[0]] else []) + Logged(layout[1..])
  }

  /** The filter keeps exactly the logged stages of the layout. */
  lemma {:induction false} LoggedStages(layout: seq<Stage>)
    ensures forall k :: 0 <= k < |Logged(layout)| ==> Logged(layout)[k].logged && Logged(layout)[k] in layout
    ensures forall stage :: stage in layout && stage.logged ==> stage in Logged(layout)
  {
    if layout != [] {
      LoggedStages(layout[1..]);
      assert forall stage :: stage in layout ==> stage == layout[0] || stage in layout[1..];
    }
  }

  function ShortNames(stages: seq<Stage>): (r: seq<string>)
    ensures |r| == |stages|
  {
    if stages == [] then [] else [stages[0].shortName] + ShortNames(stages[1..])
  }

  lemma {:induction false} ShortNamesAppend(a: seq<Stage>, b: seq<Stage>)
    ensures ShortNames(a + b) == ShortNames(a) + ShortNames(b)
  {
    if a != [] {
      assert (a + b)[1..] == a[1..] + b;
      ShortNamesAppend(a[1..], b);
    } else {
      assert a + b == b;
    }
  }

  /** The numeric fields of a session that an exercise can log. */
  datatype Field = Pulse1 | ControlPause1 | MaxPause1 | MaxPause2 | MaxPause3 | ControlPause2 | Pulse2

  function Reading(session: BreathingSession, field: Field): int {
    match field
    case Pulse1 => session.pulse1
    case ControlPause1 => session.controlPause1
    case MaxPause1 => session.maxPause1
    case MaxPause2 => session.maxPause2
    case MaxPause3 => session.maxPause3
    case ControlPause2 => session.controlPause2
    case Pulse2 => session.pulse2
  }

  /** Field `slots[i]` holds `log[i] ?? 0` and every other field is 0. */
  predicate ReadsSlots(session: BreathingSession, log: seq<int>, slots: seq<Field>) {
    && (forall i :: 0 <= i < |slots| ==> Reading(session, slots[i]) == LogAt(log, i))
    && (forall f :: f !in slots ==> Reading(session, f) == 0)
  }

  /** What every mapper sets apart from the readings: the given type and
      date, an empty note, and the id `date.getTime().toString()`. */
  predicate Stamped(session: BreathingSession, exerciseType: ExerciseType, date: Instant) {
    && session.exerciseType == exerciseType
    && session.date == date
    && session.note == ""
    && session.id == IntToString(date)
  }

  /** Two logs that agree on their first `n` slots, a missing entry read as 0. */
  predicate AgreeOn(log: seq<int>, other: seq<int>, n: nat) {
    forall i :: 0 <= i < n ==> LogAt(log, i) == LogAt(other, i)
  }

  // ---------------------------------------------------------------- stages

  const StartStage := Stage(false, 0, false, "Classical Buteyko Exercise", "start")
  const FinishedStage := Stage(false, 0, false, "Finished", "finished")
  const PulseStage := Stage(false, 15, true, "Pulse", "p")
  const ControlPauseStage := Stage(false, 0, true, "Control Pause", "cp")
  const ShallowStage := Stage(true, 180, false, "Very Shallow Breathing", "vsb")
  const SuppressStage := Stage(true, 10, false, "Suppress", "suppress")
  const RecoverStage := Stage(true, 30, false, "Recover", "recover")

  function MaxPauseStage(shortName: string): Stage {
    Stage(false, 0, true, "Maximum Pause", shortName)
  }

  /** One round of the classical exercise: a maximum pause, then suppressed
      breathing, shallow breathing and recovery. */
  function Round(maxPause: string, suppress: nat, recover: nat): seq<Stage> {
    [MaxPauseStage(maxPause), SuppressStage.(duration := suppress), ShallowStage, RecoverStage.(duration := recover)]
  }

  /** The first five stages of `classicalLayout`: introduction, pulse,
      control pause, shallow breathing and recovery. */
  const ClassicalOpening := [StartStage, PulseStage, ControlPauseStage, ShallowStage, RecoverStage]

  /** The last three stages of `classicalLayout`. */
  const ClassicalClosing := [ControlPauseStage, PulseStage, FinishedStage]

  /** `classicalLayout`. */
  const ClassicalLayout: seq<Stage> :=
    ClassicalOpening
    + Round("mp 1", 10, 30)
    + Round("mp 2", 20, 30)
    + Round("mp 3", 30, 60)
    + ClassicalClosing

  /** Filtering a concatenation filters each part. */
  lemma {:induction false} LoggedAppend(a: seq<Stage>, b: seq<Stage>)
    ensures Logged(a + b) == Logged(a) + Logged(b)
  {
    if a != [] {
      assert (a + b)[1..] == a[1..] + b;
      LoggedAppend(a[1..], b);
    } else {
      assert a + b == b;
    }
  }

  /** A round logs its maximum pause only. */
  lemma LoggedRound(maxPause: string, suppress: nat, recover: nat)
    ensures ShortNames(Logged(Round(maxPause, suppress, recover))) == [maxPause]
  {
    var l := Round(maxPause, suppress, recover);
    assert Logged(l[1..][1..][1..][1..]) == [];
    assert Logged(l[1..][1..][1..]) == [];
    assert Logged(l[1..][1..]) == [];
    assert Logged(l[1..]) == [];
  }

  lemma LoggedOpening()
    ensures ShortNames(Logged(ClassicalOpening)) == ["p", "cp"]
  {
    var l := ClassicalOpening;
    assert Logged(l[1..][1..][1..][1..][1..]) == [];
    assert Logged(l[1..][1..][1..][1..]) == [];
    assert Logged(l[1..][1..][1..]) == [];
    assert Logged(l[1..][1..]) == [ControlPauseStage];
    assert Logged(l[1..]) == [PulseStage, ControlPauseStage];
  }

  lemma LoggedClosing()
    ensures ShortNames(Logged(ClassicalClosing)) == ["cp", "p"]
  {
    var l := ClassicalClosing;
    assert Logged(l[1..][1..][1..]) == [];
    assert Logged(l[1..][1..]) == [];
    assert Logged(l[1..]) == [PulseStage];
  }

  /** The short names of the logged stages of five consecutive parts. */
  lemma LoggedNamesOfFive(a: seq<Stage>, b: seq<Stage>, c: seq<Stage>, d: seq<Stage>, e: seq<Stage>)
    ensures ShortNames(Logged(a + b + c + d + e))
         == ShortNames(Logged(a)) + ShortNames(Logged(b)) + ShortNames(Logged(c))
          + ShortNames(Logged(d)) + ShortNames(Logged(e))
  {
    LoggedAppend(a, b);
    LoggedAppend(a + b, c);
    LoggedAppend(a + b + c, d);
    LoggedAppend(a + b + c + d, e);
    ShortNamesAppend(Logged(a), Logged(b));
    ShortNamesAppend(Logged(a) + Logged(b), Logged(c));
    ShortNamesAppend(Logged(a) + Logged(b) + Logged(c), Logged(d));
    ShortNamesAppend(Logged(a) + Logged(b) + Logged(c) + Logged(d), Logged(e));
  }

  /** `classicalLayout` opens with the introduction, closes with `finished`,
      and logs seven numbers: pulse, control pause, three maximum pauses,
      control pause and pulse. */
  lemma ClassicalLayoutShape()
    ensures |ClassicalLayout| == 20
    ensures ClassicalLayout[0].shortName == "start"
    ensures ClassicalLayout[19].shortName == "finished"
    ensures ShortNames(Logged(ClassicalLayout)) == ["p", "cp", "mp 1", "mp 2", "mp 3", "cp", "p"]
  {
    LoggedNamesOfFive(ClassicalOpening, Round("mp 1", 10, 30), Round("mp 2", 20, 30), Round("mp 3", 30, 60), ClassicalClosing);
    LoggedOpening();
    LoggedRound("mp 1", 10, 30);
    LoggedRound("mp 2", 20, 30);
    LoggedRound("mp 3", 30, 60);
    LoggedClosing();
    assert ShortNames(Logged(ClassicalLayout)) == ["p", "cp"] + ["mp 1"] + ["mp 2"] + ["mp 3"] + ["cp", "p"];
  }

  /** classical `mapLogToSession`. */
  function ClassicalMapLog(log: seq<int>, date: Instant): BreathingSession {
    BreathingSession(
      controlPause1 := LogAt(log, 1), controlPause2 := LogAt(log, 5), date := date,
      exerciseType := Classical, id := IntToString(date),
      maxPause1 := LogAt(log, 2), maxPause2 := LogAt(log, 3), maxPause3 := LogAt(log, 4),
      note := "", pulse1 := LogAt(log, 0), pulse2 := LogAt(log, 6))
  }

  /** The order in which the classical exercise logs its numbers. */
  const ClassicalSlots := [Pulse1, ControlPause1, MaxPause1, MaxPause2, MaxPause3, ControlPause2, Pulse2]

  /** The classical mapper stores the n-th logged number in the n-th field of
      the logging order (0 when missing), one slot per logged stage. */
  lemma ClassicalMapping(log: seq<int>, date: Instant)
    ensures ReadsSlots(ClassicalMapLog(log, date), log, ClassicalSlots)
    ensures Stamped(ClassicalMapLog(log, date), Classical, date)
    ensures |ClassicalSlots| == |Logged(ClassicalLayout)|
  {
    ClassicalLayoutShape();
  }

  /** Numbers logged after the seventh do not change the classical session. */
  lemma ClassicalIgnoresLater(log: seq<int>, other: seq<int>, date: Instant)
    requires AgreeOn(log, other, 7)
    ensures ClassicalMapLog(log, date) == ClassicalMapLog(other, date)
  {
    assert LogAt(log, 0) == LogAt(other, 0) && LogAt(log, 1) == LogAt(other, 1);
    assert LogAt(log, 2) == LogAt(other, 2) && LogAt(log, 3) == LogAt(other, 3);
    assert LogAt(log, 4) == LogAt(other, 4) && LogAt(log, 5) == LogAt(other, 5);
    assert LogAt(log, 6) == LogAt(other, 6);
  }

  /** `classicalExercise`. */
  const ClassicalExercise := ExerciseConfig(
    "The full Buteyko Maximum Pause exercise with three breath holds of increasing intensity.",
    ClassicalLayout, ClassicalMapLog, "Classical Buteyko", "Classical", Classical)

  // ------------------------------------------------------------ diminished

  const DiminishedStart := Stage(false, 0, false, "Diminished Breathing Exercise", "start")
  const RelaxStage := Stage(true, 180, false, "Relax", "relax")
  const DiminishedBreathingStage := Stage(true, 300, false, "Diminished Breathing", "db")
  const DiminishedFinished := Stage(false, 0, false, "Finished", "finished")

  /** The first five stages of `diminishedLayout`: introduction, relaxation,
      pulse, control pause and diminished breathing. */
  const DiminishedOpening := [DiminishedStart, RelaxStage, PulseStage, ControlPauseStage, DiminishedBreathingStage]

  /** The middle control pause, more diminished breathing and relaxation. */
  const DiminishedMiddle := [ControlPauseStage, DiminishedBreathingStage, RelaxStage]

  /** The closing pulse and control pause. */
  const DiminishedClosing := [PulseStage, ControlPauseStage, DiminishedFinished]

  /** `diminishedLayout`. */
  const DiminishedLayout: seq<Stage> := DiminishedOpening + DiminishedMiddle + DiminishedClosing

  /** The short names of the logged stages of three consecutive parts. */
  lemma LoggedNamesOfThree(a: seq<Stage>, b: seq<Stage>, c: seq<Stage>)
    ensures ShortNames(Logged(a + b + c))
         == ShortNames(Logged(a)) + ShortNames(Logged(b)) + ShortNames(Logged(c))
  {
    LoggedAppend(a, b);
    LoggedAppend(a + b, c);
    ShortNamesAppend(Logged(a), Logged(b));
    ShortNamesAppend(Logged(a) + Logged(b), Logged(c));
  }

  lemma DiminishedParts()
    ensures ShortNames(Logged(DiminishedOpening)) == ["p", "cp"]
    ensures ShortNames(Logged(DiminishedMiddle)) == ["cp"]
    ensures ShortNames(Logged(DiminishedClosing)) == ["p", "cp"]
  {
    var l := DiminishedOpening;
    assert Logged(l[1..][1..][1..][1..][1..]) == [];
    assert Logged(l[1..][1..][1..][1..]) == [];
    assert Logged(l[1..][1..][1..]) == [ControlPauseStage];
    assert Logged(l[1..][1..]) == [PulseStage, ControlPauseStage];
    assert Logged(l[1..]) == [PulseStage, ControlPauseStage];
    var m := DiminishedMiddle;
    assert Logged(m[1..][1..][1..]) == [];
    assert Logged(m[1..][1..]) == [];
    assert Logged(m[1..]) == [];
    var c := DiminishedClosing;
    assert Logged(c[1..][1..][1..]) == [];
    assert Logged(c[1..][1..]) == [];
    assert Logged(c[1..]) == [ControlPauseStage];
  }

  /** `diminishedLayout` opens with the introduction, closes with `finished`,
      and logs five numbers: pulse, control pause, the middle control pause,
      pulse and control pause. */
  lemma DiminishedLayoutShape()
    ensures |DiminishedLayout| == 11
    ensures DiminishedLayout[0].shortName == "start"
    ensures DiminishedLayout[10].shortName == "finished"
    ensures ShortNames(Logged(DiminishedLayout)) == ["p", "cp", "cp", "p", "cp"]
  {
    LoggedNamesOfThree(DiminishedOpening, DiminishedMiddle, DiminishedClosing);
    DiminishedParts();
    assert ShortNames(Logged(DiminishedLayout)) == ["p", "cp"] + ["cp"] + ["p", "cp"];
  }

  /** diminished `mapLogToSession`. */
  function DiminishedMapLog(log: seq<int>, date: Instant): BreathingSession {
    BreathingSession(
      controlPause1 := LogAt(log, 1), controlPause2 := LogAt(log, 4), date := date,
      exerciseType := Diminished, id := IntToString(date),
      maxPause1 := LogAt(log, 2), maxPause2 := 0, maxPause3 := 0,
      note := "", pulse1 := LogAt(log, 0), pulse2 := LogAt(log, 3))
  }

  /** The order in which the diminished exercise logs its numbers; the
      middle control pause is stored as the first maximum pause. */
  const DiminishedSlots := [Pulse1, ControlPause1, MaxPause1, Pulse2, ControlPause2]

  /** The diminished mapper stores the n-th logged number in the n-th field
      of its logging order and leaves the second and third maximum pauses 0. */
  lemma DiminishedMapping(log: seq<int>, date: Instant)
    ensures ReadsSlots(DiminishedMapLog(log, date), log, DiminishedSlots)
    ensures DiminishedMapLog(log, date).maxPause2 == 0 && DiminishedMapLog(log, date).maxPause3 == 0
    ensures Stamped(DiminishedMapLog(log, date), Diminished, date)
    ensures |DiminishedSlots| == |Logged(DiminishedLayout)|
  {
    DiminishedLayoutShape();
    assert MaxPause2 !in DiminishedSlots && MaxPause3 !in DiminishedSlots;
  }

  /** Numbers logged after the fifth do not change the diminished session. */
  lemma DiminishedIgnoresLater(log: seq<int>, other: seq<int>, date: Instant)
    requires AgreeOn(log, other, 5)
    ensures DiminishedMapLog(log, date) == DiminishedMapLog(other, date)
  {
    assert LogAt(log, 0) == LogAt(other, 0) && LogAt(log, 1) == LogAt(other, 1);
    assert LogAt(log, 2) == LogAt(other, 2) && LogAt(log, 3) == LogAt(other, 3);
    assert LogAt(log, 4) == LogAt(other, 4);
  }

  /** `diminishedExercise`. */
  const DiminishedExercise := ExerciseConfig(
    "A gentler variation focusing on reduced breathing without maximum pauses.",
    DiminishedLayout, DiminishedMapLog, "Diminished Breathing", "Diminished", Diminished)

  // ------------------------------------------------------------------- mcp

  const McpStart := Stage(false, 0, false, "Morning Control Pause", "start")
  const McpFinished := Stage(false, 0, false, "Finished", "finished")

  /** `mcpLayout`. */
  const McpLayout: seq<Stage> := [McpStart, ControlPauseStage, McpFinished]

  /** `mcpLayout` has three stages from `start` to `finished`, and only the
      control pause is logged. */
  lemma McpLayoutShape()
    ensures |McpLayout| == 3
    ensures McpLayout[0].shortName == "start" && McpLayout[2].shortName == "finished"
    ensures ShortNames(Logged(McpLayout)) == ["cp"]
  {
    var l := McpLayout;
    assert Logged(l[1..][1..][1..]) == [];
    assert Logged(l[1..][1..]) == [];
    assert Logged(l[1..]) == [ControlPauseStage];
  }

  /** mcp `mapLogToSession`. */
  function McpMapLog(log: seq<int>, date: Instant): BreathingSession {
    BreathingSession(
      controlPause1 := LogAt(log, 0), controlPause2 := 0, date := date,
      exerciseType := Mcp, id := IntToString(date),
      maxPause1 := 0, maxPause2 := 0, maxPause3 := 0,
      note := "", pulse1 := 0, pulse2 := 0)
  }

  /** The morning control pause is the first logged number (0 for an empty
      log); every other reading is 0 and later numbers are ignored. */
  lemma McpMapping(log: seq<int>, other: seq<int>, date: Instant)
    ensures ReadsSlots(McpMapLog(log, date), log, [ControlPause1])
    ensures Stamped(McpMapLog(log, date), Mcp, date)
    ensures LogAt(log, 0) == LogAt(other, 0) ==> McpMapLog(log, date) == McpMapLog(other, date)
    ensures 1 == |Logged(McpLayout)|
  {
    McpLayoutShape();
  }

  /** `mcpExercise`; its name is `'Morning CP'`. */
  const McpExercise := ExerciseConfig(
    "Measure your Control Pause first thing in the morning to track your baseline progress.",
    McpLayout, McpMapLog, "Morning CP", "MCP", Mcp)

  /** Each configuration carries its own type, layout and mapper. */
  lemma ConfigsMatch(log: seq<int>, date: Instant)
    ensures ClassicalExercise.exerciseType == Classical && ClassicalExercise.name == "Classical Buteyko"
    ensures DiminishedExercise.exerciseType == Diminished && DiminishedExercise.name == "Diminished Breathing"
    ensures McpExercise.exerciseType == Mcp && McpExercise.name == "Morning CP" && McpExercise.shortName == "MCP"
    ensures ClassicalExercise.mapLogToSession(log, date).exerciseType == ClassicalExercise.exerciseType
    ensures DiminishedExercise.mapLogToSession(log, date).exerciseType == DiminishedExercise.exerciseType
    ensures McpExercise.mapLogToSession(log, date).exerciseType == McpExercise.exerciseType
  {
  }
}
