/**
 * The server-side turnstile import (sistema_escolar_api/import_turnstile.php).
 *
 * Unlike the browser-side import it takes every date in the file, it can
 * restrict the lines to a morning and an afternoon time window, it checks a
 * passage's formatted time (not its whole note) before noting it again, and
 * it writes to the attendance table with two policies: a Present record is
 * upserted and appends its note to the stored one, an Absent record is
 * inserted only where the table has no row for the key.
 *
 * The students, the table, the posted window fields and the record ids
 * (`uniqid()`) are parameters; the table is a map keyed by (studentId, date).
 */
module ServerTurnstile {
  import opened Wrappers
  import opened Text
  import opened Domain
  import opened TurnstileParsing
  import opened Folds

  /** (studentId, date): the key `$studentId_$date` of `$recordsToSave`, and the
      unique key of the attendance table. */
  type Key = (string, string)

  /** The script's state: `$recordsToSave` with the insertion order of its keys,
      `$presentStudentsByDate`, `$shiftActivityByDate` with the insertion order
      of its dates, and the counters it reports. */
  datatype ImportState = ImportState(
    records: map<Key, AttendanceRecord>,
    order: seq<Key>,
    present: map<string, set<string>>,
    activity: map<string, ShiftFlags>,
    dates: seq<string>,
    processed: nat,
    success: nat,
    notFound: nat,
    autoAbsence: nat)

  const Initial: ImportState := ImportState(map[], [], map[], map[], [], 0, 0, 0, 0)

  // ------------------------------------------------------------ student map

  /** The keys a student is stored under: the trimmed registration, and for a
      registration of digits also its integer form, `(string)(int)$reg`, which
      is the registration without leading zeros (Text.IntegerFormStripsZeros). */
  function KeysOf(s: Student): set<string>
  {
    var reg := PhpTrim(s.registration);
    if CtypeDigit(reg) then {reg, StripLeadingZeros(reg)} else {reg}
  }

  /** `$studentMap` after the students are stored in list order; a later
      student overwrites an earlier one under the same key. */
  function StudentMap(students: seq<Student>): (m: map<string, Student>)
  {
    if students == [] then map[]
    else
      var s := students[|students| - 1];
      var reg := PhpTrim(s.registration);
      var m := StudentMap(students[..|students| - 1])[reg := s];
      if CtypeDigit(reg) then m[StripLeadingZeros(reg) := s] else m
  }

  /** The `foreach ($students as $student)` loop that fills `$studentMap`. */
  method BuildStudentMap(students: seq<Student>) returns (studentMap: map<string, Student>)
    ensures studentMap == StudentMap(students)
  {
    studentMap := map[];
    for i := 0 to |students|
      invariant studentMap == StudentMap(students[..i])
    {
      assert students[..i + 1][..i] == students[..i];
      var student := students[i];
      var reg := PhpTrim(student.registration);
      studentMap := studentMap[reg := student];
      if CtypeDigit(reg) {
        var regInt := PhpIntCast(reg);
        assert IntToString(regInt) == StripLeadingZeros(reg) by {
          IntegerFormStripsZeros(reg);
        }
        studentMap := studentMap[IntToString(regInt) := student];
      }
    }
    assert students[..|students|] == students;
  }

  /** Every key some student of the list is stored under. */
  function AllKeys(students: seq<Student>): set<string>
  {
    UnionOf(students, KeysOf)
  }

  /** The map holds exactly the students' keys. */
  lemma {:induction false} StudentMapKeys(students: seq<Student>)
    ensures StudentMap(students).Keys == AllKeys(students)
  {
    if students != [] {
      StudentMapKeys(students[..|students| - 1]);
    }
  }

  /** Each student's keys are among all keys. */
  lemma {:induction false} OwnKeys(students: seq<Student>, i: nat)
    requires i < |students|
    ensures KeysOf(students[i]) <= AllKeys(students)
  {
    UnionOfMember(students, KeysOf, i);
  }

  /** Matching a feed registration: the exact key first, then, for digits,
      the integer form. */
  function Lookup(studentMap: map<string, Student>, matricula: string): (r: Option<Student>)
    ensures r.Some? ==> r.value in studentMap.Values
    ensures matricula in studentMap ==> r == Some(studentMap[matricula])
  {
    if matricula in studentMap then Some(studentMap[matricula])
    else if CtypeDigit(matricula) && StripLeadingZeros(matricula) in studentMap then
      Some(studentMap[StripLeadingZeros(matricula)])
    else None
  }

  /** `isset($studentMap[$m])`, then `ctype_digit` and `(string)(int)$m`. */
  method FindStudent(studentMap: map<string, Student>, matriculaRaw: string) returns (student: Option<Student>)
    ensures student == Lookup(studentMap, matriculaRaw)
  {
    student := None;
    if matriculaRaw in studentMap {
      student := Some(studentMap[matriculaRaw]);
    } else if CtypeDigit(matriculaRaw) {
      var matriculaInt := PhpIntCast(matriculaRaw);
      IntegerFormStripsZeros(matriculaRaw);
      if IntToString(matriculaInt) in studentMap {
        student := Some(studentMap[IntToString(matriculaInt)]);
      }
    }
  }

  /** Leading zeros do not matter: a feed registration of digits that agrees
      with a student's digit registration up to leading zeros finds a student,
      under the exact key when there is one, else under the integer form. */
  lemma {:induction false} LeadingZerosTolerated(students: seq<Student>, i: nat, matricula: string)
    requires i < |students| && CtypeDigit(PhpTrim(students[i].registration)) && CtypeDigit(matricula)
    requires StripLeadingZeros(matricula) == StripLeadingZeros(PhpTrim(students[i].registration))
    ensures Lookup(StudentMap(students), matricula).Some?
    ensures matricula !in StudentMap(students) ==>
      Lookup(StudentMap(students), matricula) == Some(StudentMap(students)[StripLeadingZeros(matricula)])
  {
    StudentMapKeys(students);
    OwnKeys(students, i);
  }

  /** A registration that is not stored and is not made of digits finds no one. */
  lemma {:induction false} UnknownRegistration(students: seq<Student>, matricula: string)
    requires matricula !in AllKeys(students) && !CtypeDigit(matricula)
    ensures Lookup(StudentMap(students), matricula) == None
  {
    StudentMapKeys(students);
  }

  // ---------------------------------------------------------- time windows

  /** The four optional window ends, as HHMM integers. */
  datatype Windows = Windows(morningStart: Option<int>, morningEnd: Option<int>,
                             afternoonStart: Option<int>, afternoonEnd: Option<int>)

  /** A posted window end: none when `empty()`, else `(int)str_replace(':', '', $v)`.
      A field that was not posted is the empty string. */
  function PostedTime(field: string): (r: Option<int>)
    ensures r.None? <==> PhpEmpty(field)
  {
    if PhpEmpty(field) then None else Some(PhpClockValue(field))
  }

  function ParseWindows(morningStart: string, morningEnd: string,
                        afternoonStart: string, afternoonEnd: string): Windows
  {
    Windows(PostedTime(morningStart), PostedTime(morningEnd), PostedTime(afternoonStart), PostedTime(afternoonEnd))
  }

  /** A window counts only when both of its ends were given. */
  predicate HasMorningFilter(w: Windows)
  {
    w.morningStart.Some? && w.morningEnd.Some?
  }

  predicate HasAfternoonFilter(w: Windows)
  {
    w.afternoonStart.Some? && w.afternoonEnd.Some?
  }

  /** Both ends are inclusive. */
  predicate InMorningRange(w: Windows, t: int)
  {
    HasMorningFilter(w) && w.morningStart.value <= t <= w.morningEnd.value
  }

  predicate InAfternoonRange(w: Windows, t: int)
  {
    HasAfternoonFilter(w) && w.afternoonStart.value <= t <= w.afternoonEnd.value
  }

  /** A line is kept when no window is set, or when it lies in one of them. */
  predicate Kept(w: Windows, t: int)
  {
    !(HasMorningFilter(w) || HasAfternoonFilter(w)) || InMorningRange(w, t) || InAfternoonRange(w, t)
  }

  /** The activity of a date after a kept line: morning up to 12:40 or inside the
      morning window, afternoon after 12:40 or inside the afternoon window. */
  function MarkActivity(f: ShiftFlags, w: Windows, t: int): (r: ShiftFlags)
    ensures r.morning <==> f.morning || t <= 1240 || InMorningRange(w, t)
    ensures r.afternoon <==> f.afternoon || t > 1240 || InAfternoonRange(w, t)
  {
    ShiftFlags(f.morning || t <= 1240 || InMorningRange(w, t), f.afternoon || t > 1240 || InAfternoonRange(w, t))
  }

  /** Without windows every line is kept, and the shift follows 12:40 alone. */
  lemma {:induction false} NoWindows(t: int, f: ShiftFlags)
    ensures var w := Windows(None, None, None, None);
      Kept(w, t) && MarkActivity(f, w, t) == ShiftFlags(f.morning || t <= 1240, f.afternoon || t > 1240)
  {
  }

  // ------------------------------------------------------------- line loop

  /** What the loop does with one line. */
  datatype LineOutcome =
    | Skipped                  // empty, or fewer than five fields
    | Unmatched                // no student for the registration: notFound
    | Undated                  // date in neither form
    | Passage(student: Student, date: string, code: string, time: string, clock: int)

  /** The date of a feed date, or '' when it has none. */
  function DateOrEmpty(dateRaw: string): string
  {
    match ParseFeedDate(dateRaw)
    case Some(d) => d
    case None => ""
  }

  /** Classify one line, in the order the loop makes its checks. */
  function Classify(studentMap: map<string, Student>, line: string): LineOutcome
  {
    var trimmed := PhpTrim(line);
    if PhpEmpty(trimmed) then Skipped
    else
      var cols := Split(trimmed, ';');
      if |cols| < 5 then Skipped
      else Decide(Lookup(studentMap, PhpTrim(cols[1])), DateOrEmpty(PhpTrim(cols[3])),
                  PhpTrim(cols[2]), PhpTrim(cols[4]))
  }

  /** The outcome of a line with five fields, from its student and its date. */
  function Decide(student: Option<Student>, dateISO: string, code: string, timeRaw: string): LineOutcome
  {
    match student
    case None => Unmatched
    case Some(s) =>
      if PhpEmpty(dateISO) then Undated
      else Passage(s, dateISO, code, FormatTime(timeRaw), PhpClockValue(timeRaw))
  }

  /** The outcome of every line. */
  function Outcomes(studentMap: map<string, Student>, lines: seq<string>): (os: seq<LineOutcome>)
    ensures |os| == |lines|
  {
    seq(|lines|, i requires 0 <= i < |lines| => Classify(studentMap, lines[i]))
  }

  /** `$shiftActivityByDate[$date]`, no activity when absent. */
  function ActivityOn(activity: map<string, ShiftFlags>, date: string): ShiftFlags
  {
    if date in activity then activity[date] else ShiftFlags(false, false)
  }

  /** `$presentStudentsByDate[$date] ?? []`. */
  function PresentOn(present: map<string, set<string>>, date: string): set<string>
  {
    if date in present then present[date] else {}
  }

  /** A matched, dated line: the date's tracking is created on its first line,
      and the student is marked present, whatever the time windows say. */
  function Mark(st: ImportState, date: string, id: string): ImportState
  {
    var first := date !in st.present;
    var present := if first then st.present[date := {}] else st.present;
    st.(present := present[date := present[date] + {id}],
        activity := if first then st.activity[date := ShiftFlags(false, false)] else st.activity,
        dates := if first then st.dates + [date] else st.dates)
  }

  /** The observation after a later passage of the same key: " | " and the
      note are appended unless the formatted time is already in it. */
  function Noted(observation: string, code: string, time: string): (r: string)
    ensures Contains(r, time)
    ensures StartsWith(r, observation)
    ensures Contains(observation, time) ==> r == observation
  {
    if Contains(observation, time) then observation
    else
      var prefix := observation + " | " + "Catraca (" + code + ") ";
      assert observation + " | " + PassageNote(code, time) == prefix + time;
      ContainsAppended(prefix, time);
      observation + " | " + PassageNote(code, time)
  }

  /** A passage's note holds its formatted time. */
  lemma {:induction false} NoteHasTime(code: string, time: string)
    ensures Contains(PassageNote(code, time), time)
  {
    ContainsAppended("Catraca (" + code + ") ", time);
  }

  /** A kept line: the date's activity, then the record for the key. */
  function Save(st: ImportState, w: Windows, newId: (string, string) -> string,
                student: Student, date: string, code: string, time: string, clock: int): ImportState
  {
    Note(Activate(st, w, date, clock), newId, student, date, code, time)
  }

  /** The date's activity after a kept line at the clock value. */
  function Activate(st: ImportState, w: Windows, date: string, clock: int): ImportState
  {
    st.(activity := st.activity[date := MarkActivity(ActivityOn(st.activity, date), w, clock)])
  }

  /** The first kept line of a key creates a Present record with the passage's
      note and counts it; a later one notes the passage on the record. Both
      count as processed. */
  function Note(st: ImportState, newId: (string, string) -> string,
                student: Student, date: string, code: string, time: string): ImportState
  {
    var key := (student.id, date);
    if key !in st.records then
      st.(records := st.records[key := AttendanceRecord(newId(student.id, date), student.id, date, Present,
                                                        PassageNote(code, time))],
          order := st.order + [key],
          success := st.success + 1,
          processed := st.processed + 1)
    else
      var r := st.records[key];
      st.(records := st.records[key := r.(observation := Noted(r.observation, code, time))],
          processed := st.processed + 1)
  }

  function Step(st: ImportState, w: Windows, newId: (string, string) -> string, o: LineOutcome): ImportState
  {
    match o
    case Skipped => st
    case Unmatched => st.(notFound := st.notFound + 1)
    case Undated => st
    case Passage(student, date, code, time, clock) =>
      var marked := Mark(st, date, student.id);
      if Kept(w, clock) then Save(marked, w, newId, student, date, code, time, clock) else marked
  }

  /** The state after the lines with the given outcomes, in order. */
  function Run(os: seq<LineOutcome>, w: Windows, newId: (string, string) -> string): ImportState
  {
    if os == [] then Initial
    else Step(Run(os[..|os| - 1], w, newId), w, newId, os[|os| - 1])
  }

  lemma {:induction false} RunSnoc(os: seq<LineOutcome>, i: nat, w: Windows, newId: (string, string) -> string)
    requires i < |os|
    ensures Run(os[..i + 1], w, newId) == Step(Run(os[..i], w, newId), w, newId, os[i])
  {
    assert os[..i + 1][..i] == os[..i];
  }

  /** The `while (($line = fgets($handle)) !== false)` loop over the file's lines. */
  method ProcessLines(lines: seq<string>, studentMap: map<string, Student>, w: Windows,
                      newId: (string, string) -> string) returns (st: ImportState)
    ensures st == Run(Outcomes(studentMap, lines), w, newId)
  {
    ghost var os := Outcomes(studentMap, lines);
    st := Initial;
    for i := 0 to |lines|
      invariant st == Run(os[..i], w, newId)
    {
      RunSnoc(os, i, w, newId);
      var outcome := ClassifyLine(lines[i], studentMap);
      st := ProcessLine(st, outcome, w, newId);
    }
    assert os[..|lines|] == os;
  }

  /** The checks the loop makes on one line before it touches any state. */
  method ClassifyLine(rawLine: string, studentMap: map<string, Student>) returns (outcome: LineOutcome)
    ensures outcome == Classify(studentMap, rawLine)
  {
    var line := PhpTrim(rawLine);
    if PhpEmpty(line) {
      return Skipped;
    }
    var cols := Split(line, ';');
    if |cols| < 5 {
      return Skipped;
    }
    var matriculaRaw := PhpTrim(cols[1]);
    var code := PhpTrim(cols[2]);
    var dateRaw := PhpTrim(cols[3]);
    var timeRaw := PhpTrim(cols[4]);
    assert Classify(studentMap, rawLine) == Decide(Lookup(studentMap, matriculaRaw), DateOrEmpty(dateRaw), code, timeRaw);
    var student := FindStudent(studentMap, matriculaRaw);
    if student.None? {
      return Unmatched;
    }
    var dateISO := DateOrEmpty(dateRaw);
    if PhpEmpty(dateISO) {
      return Undated;
    }
    var timeInt := PhpIntCast(RemoveAll(timeRaw, ':'));
    var timeFormatted := timeRaw;
    if |timeRaw| == 4 && ':' !in timeRaw {
      timeFormatted := timeRaw[0..2] + ":" + timeRaw[2..4];
    }
    return Passage(student.value, dateISO, code, timeFormatted, timeInt);
  }

  /** The body of the loop for one classified line. */
  method ProcessLine(st: ImportState, outcome: LineOutcome, w: Windows, newId: (string, string) -> string)
    returns (next: ImportState)
    ensures next == Step(st, w, newId, outcome)
  {
    next := st;
    match outcome {
      case Skipped =>
      case Undated =>
      case Unmatched =>
        next := next.(notFound := next.notFound + 1);
      case Passage(student, dateISO, code, timeFormatted, timeInt) =>
        next := MarkPresent(next, dateISO, student.id);
        var keep := InWindows(w, timeInt);
        if keep {
          next := SaveRecord(next, w, newId, student, dateISO, code, timeFormatted, timeInt);
        }
    }
  }

  /** Tracking for the date, created on its first line, and the presence mark. */
  method MarkPresent(st: ImportState, dateISO: string, id: string) returns (next: ImportState)
    ensures next == Mark(st, dateISO, id)
  {
    var presentStudentsByDate := st.present;
    next := st;
    if dateISO !in presentStudentsByDate {
      presentStudentsByDate := presentStudentsByDate[dateISO := {}];
      next := next.(activity := next.activity[dateISO := ShiftFlags(false, false)], dates := next.dates + [dateISO]);
    }
    presentStudentsByDate := presentStudentsByDate[dateISO := presentStudentsByDate[dateISO] + {id}];
    next := next.(present := presentStudentsByDate);
  }

  /** The window test: false only when some window is set and the time lies in neither. */
  method InWindows(w: Windows, timeInt: int) returns (keep: bool)
    ensures keep == Kept(w, timeInt)
  {
    var hasMorningFilter := w.morningStart.Some? && w.morningEnd.Some?;
    var hasAfternoonFilter := w.afternoonStart.Some? && w.afternoonEnd.Some?;
    var inMorningRange := false;
    var inAfternoonRange := false;
    if hasMorningFilter {
      if timeInt >= w.morningStart.value && timeInt <= w.morningEnd.value {
        inMorningRange := true;
      }
    }
    if hasAfternoonFilter {
      if timeInt >= w.afternoonStart.value && timeInt <= w.afternoonEnd.value {
        inAfternoonRange := true;
      }
    }
    keep := !((hasMorningFilter || hasAfternoonFilter) && !inMorningRange && !inAfternoonRange);
  }

  /** The activity flags and `$recordsToSave[$key]` for a kept line. */
  method SaveRecord(st: ImportState, w: Windows, newId: (string, string) -> string, student: Student,
                    dateISO: string, code: string, timeFormatted: string, timeInt: int)
    returns (next: ImportState)
    ensures next == Save(st, w, newId, student, dateISO, code, timeFormatted, timeInt)
  {
    var flags := ActivityOn(st.activity, dateISO);
    if timeInt <= 1240 || InMorningRange(w, timeInt) {
      flags := flags.(morning := true);
    }
    if timeInt > 1240 || InAfternoonRange(w, timeInt) {
      flags := flags.(afternoon := true);
    }
    next := st.(activity := st.activity[dateISO := flags]);
    var key := (student.id, dateISO);
    if key !in next.records {
      var record := AttendanceRecord(newId(student.id, dateISO), student.id, dateISO, Present,
                                     PassageNote(code, timeFormatted));
      next := next.(records := next.records[key := record], order := next.order + [key],
                    success := next.success + 1);
    } else {
      var record := next.records[key];
      if !Contains(record.observation, timeFormatted) {
        record := record.(observation := record.observation + " | " + PassageNote(code, timeFormatted));
      }
      next := next.(records := next.records[key := record]);
    }
    next := next.(processed := next.processed + 1);
  }

  // ------------------------------------------------------- the line loop's result

  predicate IsUnmatched(o: LineOutcome) { o.Unmatched? }

  /** A line that passes the time windows. */
  function KeptBy(w: Windows): LineOutcome -> bool
  {
    (o: LineOutcome) => o.Passage? && Kept(w, o.clock)
  }

  /** A matched, dated line of the student on the date, kept or not. */
  function PassageOf(id: string, date: string): LineOutcome -> bool
  {
    (o: LineOutcome) => o.Passage? && o.student.id == id && o.date == date
  }

  /** A matched line dated on the date. */
  function PassageOn(date: string): LineOutcome -> bool
  {
    (o: LineOutcome) => o.Passage? && o.date == date
  }

  /** A kept line of the student on the date. */
  function KeptPassageOf(w: Windows, id: string, date: string): LineOutcome -> bool
  {
    (o: LineOutcome) => o.Passage? && o.student.id == id && o.date == date && Kept(w, o.clock)
  }

  /** A kept line on the date that makes it a morning with activity. */
  function MorningOn(w: Windows, date: string): LineOutcome -> bool
  {
    (o: LineOutcome) => o.Passage? && o.date == date && Kept(w, o.clock)
                        && (o.clock <= 1240 || InMorningRange(w, o.clock))
  }

  /** A kept line on the date that makes it an afternoon with activity. */
  function AfternoonOn(w: Windows, date: string): LineOutcome -> bool
  {
    (o: LineOutcome) => o.Passage? && o.date == date && Kept(w, o.clock)
                        && (o.clock > 1240 || InAfternoonRange(w, o.clock))
  }

  /** Every record sits under its own (studentId, date), and the insertion
      order lists each key once. */
  ghost predicate WellKeyed(st: ImportState)
  {
    && (forall k | k in st.records :: st.records[k].studentId == k.0 && st.records[k].date == k.1)
    && (forall k :: k in st.records <==> k in st.order)
    && Distinct(st.order)
  }

  /** The presence and activity maps gain their dates together, the list of
      dates names each once, and every record's student is present on its date. */
  ghost predicate Tracked(st: ImportState)
  {
    && st.present.Keys == st.activity.Keys
    && (forall d :: d in st.present <==> d in st.dates)
    && Distinct(st.dates)
    && (forall k | k in st.records :: k.1 in st.present && k.0 in st.present[k.1])
  }

  /** Every record is a presence. */
  ghost predicate AllPresent(st: ImportState)
  {
    forall k | k in st.records :: st.records[k].status == Present
  }

  lemma {:induction false} MarkKeeps(st: ImportState, date: string, id: string)
    requires WellKeyed(st) && Tracked(st)
    ensures var r := Mark(st, date, id);
      && WellKeyed(r) && Tracked(r)
      && r.records == st.records && r.order == st.order
      && date in r.present && id in r.present[date]
  {
    if date !in st.present {
      DistinctSnoc(st.dates, date);
    }
  }

  lemma {:induction false} SaveKeeps(st: ImportState, w: Windows, newId: (string, string) -> string, student: Student,
                  date: string, code: string, time: string, clock: int)
    requires WellKeyed(st) && Tracked(st) && AllPresent(st)
    requires date in st.present && student.id in st.present[date]
    ensures var r := Save(st, w, newId, student, date, code, time, clock);
      var key := (student.id, date);
      && WellKeyed(r) && Tracked(r) && AllPresent(r)
      && r.records.Keys == st.records.Keys + {key}
      && Contains(r.records[key].observation, time)
      && (key in st.records ==> StartsWith(r.records[key].observation, st.records[key].observation))
      && (forall k | k in st.records && k != key :: r.records[k] == st.records[k])
  {
    var a := Activate(st, w, date, clock);
    assert a.activity.Keys == st.activity.Keys;
    NoteKeeps(a, newId, student, date, code, time);
  }

  lemma {:induction false} NoteKeeps(st: ImportState, newId: (string, string) -> string, student: Student,
                  date: string, code: string, time: string)
    requires WellKeyed(st) && Tracked(st) && AllPresent(st)
    requires date in st.present && student.id in st.present[date]
    ensures var r := Note(st, newId, student, date, code, time);
      var key := (student.id, date);
      && WellKeyed(r) && Tracked(r) && AllPresent(r)
      && r.records.Keys == st.records.Keys + {key}
      && Contains(r.records[key].observation, time)
      && (key in st.records ==> StartsWith(r.records[key].observation, st.records[key].observation))
      && (forall k | k in st.records && k != key :: r.records[k] == st.records[k])
  {
    if (student.id, date) !in st.records {
      NoteFirst(st, newId, student, date, code, time);
    } else {
      NoteAgain(st, newId, student, date, code, time);
    }
  }

  /** The first kept line of a key adds one record. */
  lemma {:induction false} NoteFirst(st: ImportState, newId: (string, string) -> string, student: Student,
                  date: string, code: string, time: string)
    requires WellKeyed(st) && Tracked(st) && AllPresent(st)
    requires date in st.present && student.id in st.present[date]
    requires (student.id, date) !in st.records
    ensures var r := Note(st, newId, student, date, code, time);
      var key := (student.id, date);
      && WellKeyed(r) && Tracked(r) && AllPresent(r)
      && r.records.Keys == st.records.Keys + {key}
      && Contains(r.records[key].observation, time)
      && (forall k | k in st.records && k != key :: r.records[k] == st.records[k])
  {
    DistinctSnoc(st.order, (student.id, date));
    NoteHasTime(code, time);
  }

  /** A later kept line of a key rewrites that record's observation alone. */
  lemma {:induction false} NoteAgain(st: ImportState, newId: (string, string) -> string, student: Student,
                  date: string, code: string, time: string)
    requires WellKeyed(st) && Tracked(st) && AllPresent(st)
    requires (student.id, date) in st.records
    ensures var r := Note(st, newId, student, date, code, time);
      var key := (student.id, date);
      && WellKeyed(r) && Tracked(r) && AllPresent(r)
      && r.records.Keys == st.records.Keys
      && Contains(r.records[key].observation, time)
      && StartsWith(r.records[key].observation, st.records[key].observation)
      && (forall k | k in st.records && k != key :: r.records[k] == st.records[k])
  {
  }

  /** Only the presence mark of a matched, dated line changes the presence map. */
  lemma {:induction false} StepPresent(st: ImportState, w: Windows, newId: (string, string) -> string, o: LineOutcome)
    ensures Step(st, w, newId, o).present
         == if o.Passage? then Mark(st, o.date, o.student.id).present else st.present
  {
  }

  /** One step keeps the invariants; a kept line puts its key in the records
      with its time in the observation, and no other line touches a record. */
  lemma {:induction false} StepKeeps(st: ImportState, w: Windows, newId: (string, string) -> string, o: LineOutcome)
    requires WellKeyed(st) && Tracked(st) && AllPresent(st)
    ensures var r := Step(st, w, newId, o);
      && WellKeyed(r) && Tracked(r) && AllPresent(r)
      && (!KeptBy(w)(o) ==> r.records == st.records && r.order == st.order)
      && (KeptBy(w)(o) ==>
            var key := (o.student.id, o.date);
            && r.records.Keys == st.records.Keys + {key}
            && Contains(r.records[key].observation, o.time)
            && (key in st.records ==> StartsWith(r.records[key].observation, st.records[key].observation))
            && (forall k | k in st.records && k != key :: r.records[k] == st.records[k]))
  {
    var r := Step(st, w, newId, o);
    if o.Passage? {
      var m := Mark(st, o.date, o.student.id);
      MarkKeeps(st, o.date, o.student.id);
      assert AllPresent(m);
      if Kept(w, o.clock) {
        assert KeptBy(w)(o);
        assert r == Save(m, w, newId, o.student, o.date, o.code, o.time, o.clock);
        SaveKeeps(m, w, newId, o.student, o.date, o.code, o.time, o.clock);
      } else {
        assert !KeptBy(w)(o);
        assert r == m;
      }
    } else {
      assert !KeptBy(w)(o);
      assert r.records == st.records && r.order == st.order;
      assert r.present == st.present && r.activity == st.activity && r.dates == st.dates;
    }
  }

  /** After the loop: the invariants hold and every record is a presence. */
  lemma {:induction false} RunKeeps(os: seq<LineOutcome>, w: Windows, newId: (string, string) -> string)
    ensures var st := Run(os, w, newId);
      WellKeyed(st) && Tracked(st) && AllPresent(st)
  {
    if os != [] {
      RunKeeps(os[..|os| - 1], w, newId);
      StepKeeps(Run(os[..|os| - 1], w, newId), w, newId, os[|os| - 1]);
    }
  }

  /** The counters after the loop: `processed` counts the kept lines,
      `notFound` the unmatched ones, `present` the keys recorded. */
  lemma {:induction false} RunCounters(os: seq<LineOutcome>, w: Windows, newId: (string, string) -> string)
    ensures var st := Run(os, w, newId);
      && st.processed == CountWhere(os, KeptBy(w))
      && st.notFound == CountWhere(os, IsUnmatched)
      && st.success == |st.order|
      && st.autoAbsence == 0
  {
    if os != [] {
      RunCounters(os[..|os| - 1], w, newId);
    }
  }

  /** A student is present on a date exactly when some matched line of the
      student carries the date, whether or not the windows keep it; a date is
      tracked exactly when some matched line carries it. */
  lemma {:induction false} RunPresent(os: seq<LineOutcome>, w: Windows, newId: (string, string) -> string,
                                      id: string, date: string)
    ensures var st := Run(os, w, newId);
      && ((date in st.present && id in st.present[date]) <==> Occurs(os, PassageOf(id, date)))
      && (date in st.present <==> Occurs(os, PassageOn(date)))
  {
    if os != [] {
      RunPresent(os[..|os| - 1], w, newId, id, date);
      StepPresent(Run(os[..|os| - 1], w, newId), w, newId, os[|os| - 1]);
      OccursSnoc(os, PassageOf(id, date));
      OccursSnoc(os, PassageOn(date));
    }
  }

  /** A key is recorded exactly when some kept line is the student's on the date. */
  lemma {:induction false} RunRecordKeys(os: seq<LineOutcome>, w: Windows, newId: (string, string) -> string,
                                         id: string, date: string)
    ensures (id, date) in Run(os, w, newId).records <==> Occurs(os, KeptPassageOf(w, id, date))
  {
    if os != [] {
      var init := os[..|os| - 1];
      RunRecordKeys(init, w, newId, id, date);
      RunKeeps(init, w, newId);
      StepKeeps(Run(init, w, newId), w, newId, os[|os| - 1]);
      OccursSnoc(os, KeptPassageOf(w, id, date));
    }
  }

  /** One step on a date's activity: it gains what a kept line of that date brings. */
  lemma {:induction false} StepActivity(st: ImportState, w: Windows, newId: (string, string) -> string, o: LineOutcome, date: string)
    requires st.present.Keys == st.activity.Keys
    ensures var r := Step(st, w, newId, o);
      && ((date in r.activity && r.activity[date].morning)
            <==> (date in st.activity && st.activity[date].morning) || MorningOn(w, date)(o))
      && ((date in r.activity && r.activity[date].afternoon)
            <==> (date in st.activity && st.activity[date].afternoon) || AfternoonOn(w, date)(o))
  {
    if o.Passage? {
      var m := Mark(st, o.date, o.student.id);
      assert m.activity == if o.date in st.present then st.activity
                           else st.activity[o.date := ShiftFlags(false, false)];
      if Kept(w, o.clock) {
        var a := Activate(m, w, o.date, o.clock);
        assert Save(m, w, newId, o.student, o.date, o.code, o.time, o.clock).activity == a.activity;
      }
    }
  }

  /** A date had morning activity exactly when a kept line on it read up to
      12:40 or fell in the morning window; the afternoon likewise. */
  lemma {:induction false} RunActivity(os: seq<LineOutcome>, w: Windows, newId: (string, string) -> string,
                                       date: string)
    ensures var st := Run(os, w, newId);
      && ((date in st.activity && st.activity[date].morning) <==> Occurs(os, MorningOn(w, date)))
      && ((date in st.activity && st.activity[date].afternoon) <==> Occurs(os, AfternoonOn(w, date)))
  {
    if os != [] {
      var init := os[..|os| - 1];
      RunActivity(init, w, newId, date);
      RunKeeps(init, w, newId);
      StepActivity(Run(init, w, newId), w, newId, os[|os| - 1], date);
      OccursSnoc(os, MorningOn(w, date));
      OccursSnoc(os, AfternoonOn(w, date));
    }
  }

  /** The record of every kept line holds that line's formatted time. */
  lemma {:induction false} RunObservation(os: seq<LineOutcome>, i: nat, w: Windows, newId: (string, string) -> string)
    requires i < |os| && KeptBy(w)(os[i])
    ensures var st := Run(os, w, newId);
      var key := (os[i].student.id, os[i].date);
      key in st.records && Contains(st.records[key].observation, os[i].time)
  {
    var init := os[..|os| - 1];
    var pre := Run(init, w, newId);
    var key := (os[i].student.id, os[i].date);
    RunKeeps(init, w, newId);
    StepKeeps(pre, w, newId, os[|os| - 1]);
    if i < |os| - 1 {
      assert init[i] == os[i];
      RunObservation(init, i, w, newId);
      var post := Run(os, w, newId);
      if post.records[key] != pre.records[key] {
        ContainsPrefix(pre.records[key].observation, post.records[key].observation, os[i].time);
      }
    }
  }

  /** A line the windows reject still marks its student present on its date. */
  lemma {:induction false} RejectedLineMarksPresent(os: seq<LineOutcome>, i: nat, w: Windows, newId: (string, string) -> string)
    requires i < |os| && os[i].Passage? && !Kept(w, os[i].clock)
    ensures var st := Run(os, w, newId);
      os[i].date in st.present && os[i].student.id in st.present[os[i].date]
  {
    RunPresent(os, w, newId, os[i].student.id, os[i].date);
    assert PassageOf(os[i].student.id, os[i].date)(os[i]);
  }

  // ------------------------------------------------------ automatic absences

  /** Whether a student is checked for absence on a date with the given
      activity: a morning student (shift "manhã" or "manha" once trimmed and
      lower-cased) when the morning window is set, or when no afternoon window
      is set and the morning had activity; an afternoon student ("tarde" or
      "vespertino") the other way round. */
  predicate ShouldCheck(student: Student, w: Windows, f: ShiftFlags)
  {
    var shift := ToLower(PhpTrim(student.shift));
    || ((shift == "manhã" || shift == "manha")
          && (HasMorningFilter(w) || (!HasAfternoonFilter(w) && f.morning)))
    || ((shift == "tarde" || shift == "vespertino")
          && (HasAfternoonFilter(w) || (!HasMorningFilter(w) && f.afternoon)))
  }

  /** The check for the students on a date with the given activity. */
  function CheckedIn(w: Windows, f: ShiftFlags): Student -> bool
  {
    (s: Student) => ShouldCheck(s, w, f)
  }

  /** The record an automatic absence creates. */
  function AbsenceRecord(newId: (string, string) -> string, studentId: string, date: string): AttendanceRecord
  {
    AttendanceRecord(newId(studentId, date), studentId, date, Absent, AutoAbsenceNote)
  }

  /** A checked student who was not present on the date and has no record for it. */
  predicate Eligible(st: ImportState, date: string, presentSet: set<string>, checked: bool, student: Student)
  {
    checked && student.id !in presentSet && (student.id, date) !in st.records
  }

  /** The check for one student on one date. */
  function AbsenceStep(st: ImportState, date: string, presentSet: set<string>, checked: bool, student: Student,
                       newId: (string, string) -> string): ImportState
  {
    var key := (student.id, date);
    if Eligible(st, date, presentSet, checked, student) then
      st.(records := st.records[key := AbsenceRecord(newId, student.id, date)],
          order := st.order + [key],
          autoAbsence := st.autoAbsence + 1)
    else st
  }

  /** `foreach ($students as $student)` for one date. */
  function AbsencesOn(st: ImportState, date: string, presentSet: set<string>, checked: Student -> bool,
                      students: seq<Student>, newId: (string, string) -> string): ImportState
  {
    if students == [] then st
    else
      var student := students[|students| - 1];
      AbsenceStep(AbsencesOn(st, date, presentSet, checked, students[..|students| - 1], newId),
                  date, presentSet, checked(student), student, newId)
  }

  /** `foreach ($shiftActivityByDate as $dateISO => $activity)`, in the order the dates were met. */
  function Absences(st: ImportState, dates: seq<string>, present: map<string, set<string>>,
                    activity: map<string, ShiftFlags>, w: Windows, students: seq<Student>,
                    newId: (string, string) -> string): ImportState
  {
    if dates == [] then st
    else
      var d := dates[|dates| - 1];
      AbsencesOn(Absences(st, dates[..|dates| - 1], present, activity, w, students, newId),
                 d, PresentOn(present, d), CheckedIn(w, ActivityOn(activity, d)), students, newId)
  }

  /** The absence pass over the state the line loop left. */
  function AbsencePass(st: ImportState, w: Windows, students: seq<Student>, newId: (string, string) -> string): ImportState
  {
    Absences(st, st.dates, st.present, st.activity, w, students, newId)
  }

  lemma {:induction false} AbsencesOnSnoc(st: ImportState, date: string, presentSet: set<string>, checked: Student -> bool,
                       students: seq<Student>, j: nat, newId: (string, string) -> string)
    requires j < |students|
    ensures AbsencesOn(st, date, presentSet, checked, students[..j + 1], newId)
         == AbsenceStep(AbsencesOn(st, date, presentSet, checked, students[..j], newId),
                        date, presentSet, checked(students[j]), students[j], newId)
  {
    assert students[..j + 1][..j] == students[..j];
  }

  lemma {:induction false} AbsencesSnoc(st: ImportState, dates: seq<string>, d: nat, present: map<string, set<string>>,
                     activity: map<string, ShiftFlags>, w: Windows, students: seq<Student>,
                     newId: (string, string) -> string)
    requires d < |dates|
    ensures Absences(st, dates[..d + 1], present, activity, w, students, newId)
         == AbsencesOn(Absences(st, dates[..d], present, activity, w, students, newId),
                       dates[d], PresentOn(present, dates[d]), CheckedIn(w, ActivityOn(activity, dates[d])),
                       students, newId)
  {
    assert dates[..d + 1][..d] == dates[..d];
  }

  /** The automatic-absence loops. */
  method AutoAbsences(st0: ImportState, w: Windows, students: seq<Student>, newId: (string, string) -> string)
    returns (st: ImportState)
    ensures st == AbsencePass(st0, w, students, newId)
  {
    st := st0;
    for d := 0 to |st0.dates|
      invariant st == Absences(st0, st0.dates[..d], st0.present, st0.activity, w, students, newId)
    {
      AbsencesSnoc(st0, st0.dates, d, st0.present, st0.activity, w, students, newId);
      var dateISO := st0.dates[d];
      st := AbsencesForDate(st, dateISO, PresentOn(st0.present, dateISO), w,
                            ActivityOn(st0.activity, dateISO), students, newId);
    }
    assert st0.dates[..|st0.dates|] == st0.dates;
  }

  /** The loop over the students for one date. */
  method AbsencesForDate(st0: ImportState, dateISO: string, presentSet: set<string>, w: Windows,
                         activity: ShiftFlags, students: seq<Student>, newId: (string, string) -> string)
    returns (st: ImportState)
    ensures st == AbsencesOn(st0, dateISO, presentSet, CheckedIn(w, activity), students, newId)
  {
    st := st0;
    for j := 0 to |students|
      invariant st == AbsencesOn(st0, dateISO, presentSet, CheckedIn(w, activity), students[..j], newId)
    {
      AbsencesOnSnoc(st0, dateISO, presentSet, CheckedIn(w, activity), students, j, newId);
      var shouldProcess := ShouldProcess(students[j], w, activity);
      st := CheckAbsence(st, dateISO, presentSet, shouldProcess, students[j], newId);
    }
    assert students[..|students|] == students;
  }

  /** `$shouldProcess` for one student. */
  method ShouldProcess(student: Student, w: Windows, activity: ShiftFlags) returns (shouldProcess: bool)
    ensures shouldProcess == ShouldCheck(student, w, activity)
  {
    var hasMorningFilter := w.morningStart.Some? && w.morningEnd.Some?;
    var hasAfternoonFilter := w.afternoonStart.Some? && w.afternoonEnd.Some?;
    var studentShift := ToLower(PhpTrim(student.shift));
    shouldProcess := false;
    if studentShift == "manhã" || studentShift == "manha" {
      if hasMorningFilter {
        shouldProcess := true;
      } else if !hasAfternoonFilter && activity.morning {
        shouldProcess := true;
      }
    }
    if studentShift == "tarde" || studentShift == "vespertino" {
      if hasAfternoonFilter {
        shouldProcess := true;
      } else if !hasMorningFilter && activity.afternoon {
        shouldProcess := true;
      }
    }
  }

  /** The body of the inner loop. */
  method CheckAbsence(st: ImportState, dateISO: string, presentSet: set<string>, shouldProcess: bool,
                      student: Student, newId: (string, string) -> string) returns (next: ImportState)
    ensures next == AbsenceStep(st, dateISO, presentSet, shouldProcess, student, newId)
  {
    next := st;
    if shouldProcess && student.id !in presentSet {
      var key := (student.id, dateISO);
      if key !in st.records {
        next := st.(records := st.records[key := AbsenceRecord(newId, student.id, dateISO)],
                    order := st.order + [key],
                    autoAbsence := st.autoAbsence + 1);
      }
    }
  }

  /** r is st with automatic absences added: every record stays, each new key
      holds a fresh Absent record, and the counter counts the new keys. */
  ghost predicate AddsAbsences(st: ImportState, r: ImportState, newId: (string, string) -> string)
  {
    && WellKeyed(r)
    && r.present == st.present && r.activity == st.activity && r.dates == st.dates
    && r.processed == st.processed && r.success == st.success && r.notFound == st.notFound
    && (forall k | k in st.records :: k in r.records && r.records[k] == st.records[k])
    && (forall k | k in r.records && k !in st.records :: r.records[k] == AbsenceRecord(newId, k.0, k.1))
    && r.autoAbsence + |st.records| == st.autoAbsence + |r.records|
  }

  lemma {:induction false} AbsenceStepAdds(st: ImportState, date: string, presentSet: set<string>, checked: bool, student: Student,
                        newId: (string, string) -> string)
    requires WellKeyed(st)
    ensures AddsAbsences(st, AbsenceStep(st, date, presentSet, checked, student, newId), newId)
  {
    if Eligible(st, date, presentSet, checked, student) {
      DistinctSnoc(st.order, (student.id, date));
    }
  }

  lemma {:induction false} AddsAbsencesTransitive(a: ImportState, b: ImportState, c: ImportState, newId: (string, string) -> string)
    requires WellKeyed(a) && AddsAbsences(a, b, newId) && AddsAbsences(b, c, newId)
    ensures AddsAbsences(a, c, newId)
  {
  }

  lemma {:induction false} AbsencesOnAdd(st: ImportState, date: string, presentSet: set<string>,
                                         checked: Student -> bool, students: seq<Student>,
                                         newId: (string, string) -> string)
    requires WellKeyed(st)
    ensures AddsAbsences(st, AbsencesOn(st, date, presentSet, checked, students, newId), newId)
  {
    if students != [] {
      var mid := AbsencesOn(st, date, presentSet, checked, students[..|students| - 1], newId);
      AbsencesOnAdd(st, date, presentSet, checked, students[..|students| - 1], newId);
      var student := students[|students| - 1];
      AbsenceStepAdds(mid, date, presentSet, checked(student), student, newId);
      AddsAbsencesTransitive(st, mid, AbsencesOn(st, date, presentSet, checked, students, newId), newId);
    }
  }

  /** The absence pass keeps every record, adds only fresh Absent records,
      and counts what it adds. */
  lemma {:induction false} AbsencesAdd(st: ImportState, dates: seq<string>, present: map<string, set<string>>,
                                       activity: map<string, ShiftFlags>, w: Windows, students: seq<Student>,
                                       newId: (string, string) -> string)
    requires WellKeyed(st)
    ensures AddsAbsences(st, Absences(st, dates, present, activity, w, students, newId), newId)
  {
    if dates != [] {
      var d := dates[|dates| - 1];
      var mid := Absences(st, dates[..|dates| - 1], present, activity, w, students, newId);
      AbsencesAdd(st, dates[..|dates| - 1], present, activity, w, students, newId);
      AbsencesOnAdd(mid, d, PresentOn(present, d), CheckedIn(w, ActivityOn(activity, d)), students, newId);
      AddsAbsencesTransitive(st, mid, Absences(st, dates, present, activity, w, students, newId), newId);
    }
  }

  /** One check keeps every key, and gives a checked student who was not
      present a key for the date. */
  lemma {:induction false} AbsenceStepKeeps(st: ImportState, date: string, presentSet: set<string>, checked: bool, student: Student,
                         newId: (string, string) -> string)
    ensures st.records.Keys <= AbsenceStep(st, date, presentSet, checked, student, newId).records.Keys
    ensures checked && student.id !in presentSet ==>
      (student.id, date) in AbsenceStep(st, date, presentSet, checked, student, newId).records
  {
  }

  /** The only key one check can add is the student's for the date, when the
      student is checked and was not present. */
  lemma {:induction false} AbsenceStepNew(st: ImportState, date: string, presentSet: set<string>, checked: bool, student: Student,
                       newId: (string, string) -> string, k: Key)
    requires k in AbsenceStep(st, date, presentSet, checked, student, newId).records && k !in st.records
    ensures k == (student.id, date) && checked && student.id !in presentSet
  {
  }

  /** Every checked student who was not present on the date has a record for it afterwards. */
  lemma {:induction false} AbsencesOnCover(st: ImportState, date: string, presentSet: set<string>,
                                           checked: Student -> bool, students: seq<Student>,
                                           newId: (string, string) -> string, j: nat)
    requires j < |students| && checked(students[j]) && students[j].id !in presentSet
    ensures (students[j].id, date) in AbsencesOn(st, date, presentSet, checked, students, newId).records
  {
    var n := |students| - 1;
    var init := students[..n];
    var mid := AbsencesOn(st, date, presentSet, checked, init, newId);
    AbsenceStepKeeps(mid, date, presentSet, checked(students[n]), students[n], newId);
    if j < n {
      assert init[j] == students[j];
      AbsencesOnCover(st, date, presentSet, checked, init, newId, j);
    }
  }

  /** A key the pass over one date adds is that date's, for a checked student
      who was not present. */
  lemma {:induction false} AbsencesOnNew(st: ImportState, date: string, presentSet: set<string>,
                                         checked: Student -> bool, students: seq<Student>,
                                         newId: (string, string) -> string, k: Key)
    requires WellKeyed(st)
    requires k in AbsencesOn(st, date, presentSet, checked, students, newId).records && k !in st.records
    ensures k.1 == date && k.0 !in presentSet
    ensures exists j :: 0 <= j < |students| && students[j].id == k.0 && checked(students[j])
  {
    var n := |students| - 1;
    var init := students[..n];
    var mid := AbsencesOn(st, date, presentSet, checked, init, newId);
    AbsencesOnAdd(st, date, presentSet, checked, init, newId);
    if k in mid.records {
      AbsencesOnNew(st, date, presentSet, checked, init, newId, k);
      var j :| 0 <= j < n && init[j].id == k.0 && checked(init[j]);
      assert students[j] == init[j];
    } else {
      AbsenceStepNew(mid, date, presentSet, checked(students[n]), students[n], newId, k);
    }
  }

  /** Over all dates: every checked student who was not present on a date has
      a record for it afterwards. */
  lemma {:induction false} AbsencesCover(st: ImportState, dates: seq<string>, present: map<string, set<string>>,
                                         activity: map<string, ShiftFlags>, w: Windows, students: seq<Student>,
                                         newId: (string, string) -> string, i: nat, j: nat)
    requires WellKeyed(st)
    requires i < |dates| && j < |students|
    requires ShouldCheck(students[j], w, ActivityOn(activity, dates[i]))
    requires students[j].id !in PresentOn(present, dates[i])
    ensures (students[j].id, dates[i]) in Absences(st, dates, present, activity, w, students, newId).records
  {
    var init := dates[..|dates| - 1];
    var d := dates[|dates| - 1];
    var mid := Absences(st, init, present, activity, w, students, newId);
    AbsencesAdd(st, init, present, activity, w, students, newId);
    AbsencesOnAdd(mid, d, PresentOn(present, d), CheckedIn(w, ActivityOn(activity, d)), students, newId);
    if i < |dates| - 1 {
      assert init[i] == dates[i];
      AbsencesCover(st, init, present, activity, w, students, newId, i, j);
    } else {
      AbsencesOnCover(mid, d, PresentOn(present, d), CheckedIn(w, ActivityOn(activity, d)), students, newId, j);
    }
  }

  /** Over all dates: a key the pass adds is for one of the dates, for a
      checked student who was not present that day. */
  lemma {:induction false} AbsencesNew(st: ImportState, dates: seq<string>, present: map<string, set<string>>,
                                       activity: map<string, ShiftFlags>, w: Windows, students: seq<Student>,
                                       newId: (string, string) -> string, k: Key)
    requires WellKeyed(st)
    requires k in Absences(st, dates, present, activity, w, students, newId).records && k !in st.records
    ensures k.1 in dates && k.0 !in PresentOn(present, k.1)
    ensures exists j :: 0 <= j < |students| && students[j].id == k.0
                        && ShouldCheck(students[j], w, ActivityOn(activity, k.1))
  {
    var init := dates[..|dates| - 1];
    var d := dates[|dates| - 1];
    var mid := Absences(st, init, present, activity, w, students, newId);
    AbsencesAdd(st, init, present, activity, w, students, newId);
    if k in mid.records {
      AbsencesNew(st, init, present, activity, w, students, newId, k);
    } else {
      AbsencesOnNew(mid, d, PresentOn(present, d), CheckedIn(w, ActivityOn(activity, d)), students, newId, k);
    }
  }

  // ------------------------------------------------------------ persistence

  /** The attendance table, by its unique key (studentId, date). */
  type Table = map<Key, AttendanceRecord>

  function RowKey(r: AttendanceRecord): Key
  {
    (r.studentId, r.date)
  }

  /** `CONCAT(IFNULL(observation, ''), IF(observation <> '', ' | ', ''), :observation)`;
      a NULL observation is the empty string here. */
  function JoinObservation(stored: string, incoming: string): (r: string)
    ensures StartsWith(r, stored) && EndsWith(r, incoming)
    ensures |r| == |stored| + |incoming| + (if stored == [] then 0 else 3)
    ensures stored != [] ==> r[|stored|..|stored| + 3] == " | "
  {
    if stored != [] then stored + " | " + incoming else incoming
  }

  /** The Present statement: insert, or on a duplicate key set the status and
      append the observation; the stored row keeps its id. */
  function Upsert(table: Table, r: AttendanceRecord): Table
  {
    var key := RowKey(r);
    if key in table then
      table[key := table[key].(status := r.status, observation := JoinObservation(table[key].observation, r.observation))]
    else table[key := r]
  }

  /** The Absent statement, INSERT IGNORE: a row already under the key stays as it is. */
  function InsertIgnore(table: Table, r: AttendanceRecord): Table
  {
    var key := RowKey(r);
    if key in table then table else table[key := r]
  }

  /** The row an upsert leaves under the record's key. */
  function Merged(table: Table, r: AttendanceRecord): AttendanceRecord
  {
    var key := RowKey(r);
    if key in table then table[key].(status := r.status, observation := JoinObservation(table[key].observation, r.observation))
    else r
  }

  /** The records under the keys, upserted in order. */
  function UpsertAll(table: Table, records: map<Key, AttendanceRecord>, keys: seq<Key>): Table
    requires forall k | k in keys :: k in records
  {
    if keys == [] then table
    else Upsert(UpsertAll(table, records, keys[..|keys| - 1]), records[keys[|keys| - 1]])
  }

  /** The records under the keys, inserted in order with INSERT IGNORE. */
  function InsertIgnoreAll(table: Table, records: map<Key, AttendanceRecord>, keys: seq<Key>): Table
    requires forall k | k in keys :: k in records
  {
    if keys == [] then table
    else InsertIgnore(InsertIgnoreAll(table, records, keys[..|keys| - 1]), records[keys[|keys| - 1]])
  }

  /** The keys of the Present records, or of the others, in the order they were saved. */
  function KeysWithStatus(records: map<Key, AttendanceRecord>, order: seq<Key>, present: bool): (keys: seq<Key>)
    ensures forall k :: k in keys <==> k in order && k in records && (records[k].status == Present) == present
  {
    Filter(order, (k: Key) => k in records && (records[k].status == Present) == present)
  }

  /** The table after the transaction: first the Present records, then the others. */
  function Persisted(table: Table, st: ImportState): Table
  {
    var presents := KeysWithStatus(st.records, st.order, true);
    var absents := KeysWithStatus(st.records, st.order, false);
    InsertIgnoreAll(UpsertAll(table, st.records, presents), st.records, absents)
  }

  /** The transaction: the split into `$presentRecords` and `$absentRecords`,
      then the upsert loop and the INSERT IGNORE loop. */
  method Persist(table: Table, st: ImportState) returns (result: Table)
    ensures result == Persisted(table, st)
  {
    var presentKeys, absentKeys := SplitByStatus(st.records, st.order);
    result := UpsertPresents(table, st.records, presentKeys);
    result := InsertAbsents(result, st.records, absentKeys);
  }

  /** The records to save split by status, each named by its key. */
  method SplitByStatus(records: map<Key, AttendanceRecord>, order: seq<Key>)
    returns (presentKeys: seq<Key>, absentKeys: seq<Key>)
    ensures presentKeys == KeysWithStatus(records, order, true)
    ensures absentKeys == KeysWithStatus(records, order, false)
  {
    presentKeys := [];
    absentKeys := [];
    for i := 0 to |order|
      invariant presentKeys == KeysWithStatus(records, order[..i], true)
      invariant absentKeys == KeysWithStatus(records, order[..i], false)
    {
      assert order[..i + 1][..i] == order[..i];
      var k := order[i];
      if k in records {
        if records[k].status == Present {
          presentKeys := presentKeys + [k];
        } else {
          absentKeys := absentKeys + [k];
        }
      }
    }
    assert order[..|order|] == order;
  }

  /** The loop over `$presentRecords`. */
  method UpsertPresents(table: Table, records: map<Key, AttendanceRecord>, keys: seq<Key>) returns (result: Table)
    requires forall k | k in keys :: k in records
    ensures result == UpsertAll(table, records, keys)
  {
    result := table;
    for i := 0 to |keys|
      invariant result == UpsertAll(table, records, keys[..i])
    {
      assert keys[..i + 1][..i] == keys[..i];
      result := Upsert(result, records[keys[i]]);
    }
    assert keys[..|keys|] == keys;
  }

  /** The loop over `$absentRecords`. */
  method InsertAbsents(table: Table, records: map<Key, AttendanceRecord>, keys: seq<Key>) returns (result: Table)
    requires forall k | k in keys :: k in records
    ensures result == InsertIgnoreAll(table, records, keys)
  {
    result := table;
    for i := 0 to |keys|
      invariant result == InsertIgnoreAll(table, records, keys[..i])
    {
      assert keys[..i + 1][..i] == keys[..i];
      result := InsertIgnore(result, records[keys[i]]);
    }
    assert keys[..|keys|] == keys;
  }

  /** Each key names a record stored under its own key. */
  ghost predicate Keyed(records: map<Key, AttendanceRecord>, keys: seq<Key>)
  {
    forall k | k in keys :: k in records && RowKey(records[k]) == k
  }

  /** The upserts leave a key none of them names as it was. */
  lemma {:induction false} UpsertAllOther(table: Table, records: map<Key, AttendanceRecord>, keys: seq<Key>, k: Key)
    requires Keyed(records, keys) && k !in keys
    ensures var t := UpsertAll(table, records, keys);
      (k in t <==> k in table) && (k in table ==> t[k] == table[k])
  {
    if keys != [] {
      UpsertAllOther(table, records, keys[..|keys| - 1], k);
    }
  }

  /** With each key named once, the row under a named key is the upsert of its record. */
  lemma {:induction false} UpsertAllAt(table: Table, records: map<Key, AttendanceRecord>, keys: seq<Key>, k: Key)
    requires Keyed(records, keys) && Distinct(keys) && k in keys
    ensures var t := UpsertAll(table, records, keys);
      k in t && t[k] == Merged(table, records[k])
  {
    var n := |keys| - 1;
    var init := keys[..n];
    assert Distinct(init);
    if keys[n] == k {
      assert k !in init;
      UpsertAllOther(table, records, init, k);
    } else {
      assert k in init;
      UpsertAllAt(table, records, init, k);
    }
  }

  /** The inserts leave a key none of them names as it was. */
  lemma {:induction false} InsertIgnoreAllOther(table: Table, records: map<Key, AttendanceRecord>, keys: seq<Key>, k: Key)
    requires Keyed(records, keys) && k !in keys
    ensures var t := InsertIgnoreAll(table, records, keys);
      (k in t <==> k in table) && (k in table ==> t[k] == table[k])
  {
    if keys != [] {
      InsertIgnoreAllOther(table, records, keys[..|keys| - 1], k);
    }
  }

  /** With each key named once, a named key keeps its row if it had one and
      gets its record otherwise. */
  lemma {:induction false} InsertIgnoreAllAt(table: Table, records: map<Key, AttendanceRecord>, keys: seq<Key>, k: Key)
    requires Keyed(records, keys) && Distinct(keys) && k in keys
    ensures var t := InsertIgnoreAll(table, records, keys);
      k in t && t[k] == if k in table then table[k] else records[k]
  {
    var n := |keys| - 1;
    var init := keys[..n];
    assert Distinct(init);
    if keys[n] == k {
      assert k !in init;
      InsertIgnoreAllOther(table, records, init, k);
    } else {
      assert k in init;
      InsertIgnoreAllAt(table, records, init, k);
    }
  }

  /** The table after the transaction, key by key: a key with no record to save
      is untouched; a Present record is upserted (a stored row keeps its id and
      gains the note after " | "); an Absent record lands only where no row was. */
  lemma {:induction false} PersistedRow(table: Table, st: ImportState, k: Key)
    requires WellKeyed(st)
    ensures var t := Persisted(table, st);
      && (k !in st.records ==> (k in t <==> k in table) && (k in table ==> t[k] == table[k]))
      && (k in st.records && st.records[k].status == Present ==> k in t && t[k] == Merged(table, st.records[k]))
      && (k in st.records && st.records[k].status != Present ==>
            k in t && t[k] == if k in table then table[k] else st.records[k])
  {
    var presents := KeysWithStatus(st.records, st.order, true);
    var absents := KeysWithStatus(st.records, st.order, false);
    var upserted := UpsertAll(table, st.records, presents);
    FilterDistinct(st.order, (k: Key) => k in st.records && (st.records[k].status == Present) == true);
    FilterDistinct(st.order, (k: Key) => k in st.records && (st.records[k].status == Present) == false);
    if k !in st.records {
      UpsertAllOther(table, st.records, presents, k);
      InsertIgnoreAllOther(upserted, st.records, absents, k);
    } else if st.records[k].status == Present {
      UpsertAllAt(table, st.records, presents, k);
      InsertIgnoreAllOther(upserted, st.records, absents, k);
    } else {
      UpsertAllOther(table, st.records, presents, k);
      InsertIgnoreAllAt(upserted, st.records, absents, k);
    }
  }

  // -------------------------------------------------------------- top level

  /** The JSON reply: `processed`, `present`, `absent`, `notFound`, `datesProcessed`. */
  datatype Summary = Summary(processed: nat, present: nat, absent: nat, notFound: nat, datesProcessed: nat)

  /** The outcome of each line of the file. */
  function FileOutcomes(content: string, students: seq<Student>): (os: seq<LineOutcome>)
  {
    Outcomes(StudentMap(students), Split(content, '\n'))
  }

  /** The state after the line loop and the absence pass. */
  function Collected(content: string, students: seq<Student>, w: Windows, newId: (string, string) -> string): ImportState
  {
    AbsencePass(Run(FileOutcomes(content, students), w, newId), w, students, newId)
  }

  function SummaryOf(st: ImportState): Summary
  {
    Summary(st.processed, st.success, st.autoAbsence, st.notFound, |st.activity|)
  }

  /** The import: the student map, the windows, the line loop, the absence
      pass and the transaction. A field that was not posted is the empty string. */
  method ImportTurnstile(content: string, students: seq<Student>,
                         morningStart: string, morningEnd: string, afternoonStart: string, afternoonEnd: string,
                         table: Table, newId: (string, string) -> string)
    returns (summary: Summary, newTable: Table)
    ensures var st := Collected(content, students, ParseWindows(morningStart, morningEnd, afternoonStart, afternoonEnd), newId);
      summary == SummaryOf(st) && newTable == Persisted(table, st)
  {
    var studentMap := BuildStudentMap(students);
    var w := ParseWindows(morningStart, morningEnd, afternoonStart, afternoonEnd);
    var st := ProcessLines(Split(content, '\n'), studentMap, w, newId);
    st := AutoAbsences(st, w, students, newId);
    newTable := Persist(table, st);
    summary := Summary(st.processed, st.success, st.autoAbsence, st.notFound, |st.activity|);
  }

  /** What the line loop and the pass leave, in one place: the invariants,
      and the records the pass adds. */
  lemma {:induction false} CollectedFacts(content: string, students: seq<Student>, w: Windows, newId: (string, string) -> string)
    ensures var loop := Run(FileOutcomes(content, students), w, newId);
      var st := Collected(content, students, w, newId);
      && WellKeyed(loop) && Tracked(loop) && AllPresent(loop)
      && AddsAbsences(loop, st, newId)
  {
    var loop := Run(FileOutcomes(content, students), w, newId);
    RunKeeps(FileOutcomes(content, students), w, newId);
    AbsencesAdd(loop, loop.dates, loop.present, loop.activity, w, students, newId);
  }

  /** A well-kept state has one record per saved key and one activity entry per date. */
  lemma {:induction false} Sizes(st: ImportState)
    requires WellKeyed(st) && Tracked(st)
    ensures |st.records| == |st.order| && |st.activity| == |st.dates|
  {
    DistinctCard(st.order);
    assert st.records.Keys == set k | k in st.order;
    DistinctCard(st.dates);
    assert st.activity.Keys == set d | d in st.dates;
  }

  /** The reply: `processed` counts the kept lines and `notFound` the unmatched
      ones; `present` counts the keys the lines recorded and `absent` the
      automatic absences, together every record saved; `datesProcessed` counts
      the dates of the matched lines. */
  lemma {:induction false} ServerSummary(content: string, students: seq<Student>, w: Windows, newId: (string, string) -> string)
    ensures var os := FileOutcomes(content, students);
      var st := Collected(content, students, w, newId);
      var summary := SummaryOf(st);
      && summary.processed == CountWhere(os, KeptBy(w))
      && summary.notFound == CountWhere(os, IsUnmatched)
      && summary.present == |Run(os, w, newId).records|
      && summary.present + summary.absent == |st.records|
      && summary.datesProcessed == |st.dates|
      && (forall d :: d in st.dates <==> Occurs(os, PassageOn(d)))
  {
    var os := FileOutcomes(content, students);
    var loop := Run(os, w, newId);
    CollectedFacts(content, students, w, newId);
    RunCounters(os, w, newId);
    Sizes(loop);
    forall d
      ensures d in loop.dates <==> Occurs(os, PassageOn(d))
    {
      RunPresent(os, w, newId, "", d);
    }
  }

  /** A kept line is a matched, dated line. */
  lemma {:induction false} KeptIsPassage(os: seq<LineOutcome>, w: Windows, id: string, date: string)
    ensures Occurs(os, KeptPassageOf(w, id, date)) ==> Occurs(os, PassageOf(id, date))
  {
    if Occurs(os, KeptPassageOf(w, id, date)) {
      var x :| 0 <= x < |os| && KeptPassageOf(w, id, date)(os[x]);
      assert PassageOf(id, date)(os[x]);
    }
  }

  /** Merging a Present record keeps its notes at the end of the stored
      observation and, on an existing row, that row's id and observation. */
  lemma {:induction false} MergedPresent(table: Table, r: AttendanceRecord, time: string)
    requires r.status == Present && Contains(r.observation, time)
    ensures var m := Merged(table, r);
      && m.status == Present && Contains(m.observation, time)
      && (RowKey(r) in table ==> m.id == table[RowKey(r)].id && StartsWith(m.observation, table[RowKey(r)].observation))
  {
    var key := RowKey(r);
    if key in table {
      var joined := JoinObservation(table[key].observation, r.observation);
      assert joined == joined[..|joined| - |r.observation|] + r.observation;
      ContainsInSuffix(joined[..|joined| - |r.observation|], r.observation, time);
    }
  }

  /** A kept line's record survives the absence pass as a Present record
      holding the line's time. */
  lemma {:induction false} CollectedKept(content: string, students: seq<Student>, w: Windows,
                      newId: (string, string) -> string, i: nat)
    requires i < |FileOutcomes(content, students)| && KeptBy(w)(FileOutcomes(content, students)[i])
    ensures var o := FileOutcomes(content, students)[i];
      var st := Collected(content, students, w, newId);
      var k := (o.student.id, o.date);
      && WellKeyed(st) && k in st.records && RowKey(st.records[k]) == k
      && st.records[k].status == Present && Contains(st.records[k].observation, o.time)
  {
    CollectedFacts(content, students, w, newId);
    RunObservation(FileOutcomes(content, students), i, w, newId);
  }

  /** After the import, the row of a kept line's key is Present and holds the
      line's formatted time; a row that was already there keeps its id and
      its observation, which the new notes follow. */
  lemma {:induction false} ServerKeptRow(content: string, students: seq<Student>, w: Windows, table: Table,
                      newId: (string, string) -> string, i: nat)
    requires i < |FileOutcomes(content, students)| && KeptBy(w)(FileOutcomes(content, students)[i])
    ensures var o := FileOutcomes(content, students)[i];
      var t := Persisted(table, Collected(content, students, w, newId));
      var k := (o.student.id, o.date);
      && k in t && t[k].status == Present && Contains(t[k].observation, o.time)
      && (k in table ==> t[k].id == table[k].id && StartsWith(t[k].observation, table[k].observation))
  {
    var o := FileOutcomes(content, students)[i];
    var k := (o.student.id, o.date);
    var st := Collected(content, students, w, newId);
    CollectedKept(content, students, w, newId, i);
    PersistedRow(table, st, k);
    MergedPresent(table, st.records[k], o.time);
  }

  /** A student whose every line on a date falls outside the windows gets
      neither a presence nor an absence for it: the row is left as it was. */
  lemma {:induction false} ServerRejectedRow(content: string, students: seq<Student>, w: Windows, table: Table,
                          newId: (string, string) -> string, id: string, date: string)
    requires Occurs(FileOutcomes(content, students), PassageOf(id, date))
    requires !Occurs(FileOutcomes(content, students), KeptPassageOf(w, id, date))
    ensures var t := Persisted(table, Collected(content, students, w, newId));
      var k := (id, date);
      (k in t <==> k in table) && (k in table ==> t[k] == table[k])
  {
    var os := FileOutcomes(content, students);
    var loop := Run(os, w, newId);
    var st := Collected(content, students, w, newId);
    var k := (id, date);
    CollectedFacts(content, students, w, newId);
    RunRecordKeys(os, w, newId, id, date);
    RunPresent(os, w, newId, id, date);
    if k in st.records {
      AbsencesNew(loop, loop.dates, loop.present, loop.activity, w, students, newId, k);
    }
    PersistedRow(table, st, k);
  }

  /** A checked student with no line on a date that has lines gets the
      automatic absence record in the collected state. */
  lemma {:induction false} CollectedAbsent(content: string, students: seq<Student>, w: Windows,
                        newId: (string, string) -> string, j: nat, date: string)
    requires j < |students|
    requires Occurs(FileOutcomes(content, students), PassageOn(date))
    requires !Occurs(FileOutcomes(content, students), PassageOf(students[j].id, date))
    requires ShouldCheck(students[j], w, ShiftFlags(Occurs(FileOutcomes(content, students), MorningOn(w, date)),
                                                    Occurs(FileOutcomes(content, students), AfternoonOn(w, date))))
    ensures var st := Collected(content, students, w, newId);
      var k := (students[j].id, date);
      && WellKeyed(st) && k in st.records && st.records[k] == AbsenceRecord(newId, students[j].id, date)
  {
    var os := FileOutcomes(content, students);
    var loop := Run(os, w, newId);
    var id := students[j].id;
    CollectedFacts(content, students, w, newId);
    RunPresent(os, w, newId, id, date);
    RunActivity(os, w, newId, date);
    RunRecordKeys(os, w, newId, id, date);
    KeptIsPassage(os, w, id, date);
    assert date in loop.dates;
    var i :| 0 <= i < |loop.dates| && loop.dates[i] == date;
    AbsencesCover(loop, loop.dates, loop.present, loop.activity, w, students, newId, i, j);
  }

  /** A student with no line on a date that has lines, checked under that
      date's activity, ends with an Absent row, unless the table already had
      a row for the key, which then stays as it was. */
  lemma {:induction false} ServerAbsentRow(content: string, students: seq<Student>, w: Windows, table: Table,
                        newId: (string, string) -> string, j: nat, date: string)
    requires j < |students|
    requires Occurs(FileOutcomes(content, students), PassageOn(date))
    requires !Occurs(FileOutcomes(content, students), PassageOf(students[j].id, date))
    requires ShouldCheck(students[j], w, ShiftFlags(Occurs(FileOutcomes(content, students), MorningOn(w, date)),
                                                    Occurs(FileOutcomes(content, students), AfternoonOn(w, date))))
    ensures var t := Persisted(table, Collected(content, students, w, newId));
      var k := (students[j].id, date);
      k in t && t[k] == if k in table then table[k] else AbsenceRecord(newId, students[j].id, date)
  {
    CollectedAbsent(content, students, w, newId, j, date);
    PersistedRow(table, Collected(content, students, w, newId), (students[j].id, date));
  }

  /** The import never replaces a row with an absence: a row of the table
      either stays as it was or becomes Present with its id and observation
      kept at the front. */
  lemma {:induction false} ServerKeepsRows(content: string, students: seq<Student>, w: Windows, table: Table,
                        newId: (string, string) -> string, k: Key)
    requires k in table
    ensures var t := Persisted(table, Collected(content, students, w, newId));
      && k in t
      && (t[k] == table[k]
          || (t[k].status == Present && t[k].id == table[k].id && StartsWith(t[k].observation, table[k].observation)))
  {
    var st := Collected(content, students, w, newId);
    CollectedFacts(content, students, w, newId);
    PersistedRow(table, st, k);
  }
}
