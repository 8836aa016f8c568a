/**
 * The browser-side turnstile import (`handleImportTurnstile` in App.tsx).
 *
 * The file is read line by line; a line names a student by registration
 * ("matrícula"), and only lines dated today count. Every student met gets a
 * Present record for the day with a "Catraca (code) HH:MM" note; then, for
 * each shift that had activity, every student of that shift who was not met
 * and has no record for the day gets an automatic Absent record. The pending
 * records are finally merged into the attendance list by record id.
 *
 * "Today", the random record ids and the student and attendance collections
 * are parameters. The key `${studentId}_${date}` is the pair (studentId, date).
 */
module ClientTurnstile {
  import opened Wrappers
  import opened Text
  import opened Domain
  import opened TurnstileParsing
  import opened Folds

  /** (studentId, date): the key of `pendingUpdates`. */
  type Key = (string, string)

  /** The handler's local state: `pendingUpdates` with its insertion order,
      `presentStudentsByDate`, `shiftsProcessedByDate` with the insertion
      order of their dates, and the five counters. */
  datatype ImportState = ImportState(
    pending: map<Key, AttendanceRecord>,
    order: seq<Key>,
    present: map<string, set<string>>,
    flags: map<string, ShiftFlags>,
    dates: seq<string>,
    processed: nat,
    success: nat,
    notFound: nat,
    skippedDate: nat,
    autoAbsence: nat)

  const Initial: ImportState := ImportState(map[], [], map[], map[], [], 0, 0, 0, 0, 0)

  // ------------------------------------------------------------ student map

  /** A registration's lookup key: its integer form (`parseInt(r, 10).toString()`,
      see Text.IntegerFormIsToString) when it has one, else the registration trimmed. */
  function NormalizedRegistration(reg: string): string
  {
    match IntegerForm(reg)
    case Some(form) => form
    case None => Trim(reg)
  }

  /** The keys a student is stored under: the normalized one, and the exact
      registration too when it differs. */
  function KeysOf(s: Student): set<string>
  {
    KeysUnder(s, NormalizedRegistration)
  }

  /** `studentMap` after the students are stored in list order; a later
      student overwrites an earlier one under the same key. */
  function StudentMap(students: seq<Student>): map<string, Student>
  {
    StoreUnder(students, NormalizedRegistration)
  }

  /** The loop that fills `studentMap`. */
  method BuildStudentMap(students: seq<Student>) returns (studentMap: map<string, Student>)
    ensures studentMap == StudentMap(students)
  {
    studentMap := map[];
    for i := 0 to |students|
      invariant studentMap == StoreUnder(students[..i], NormalizedRegistration)
    {
      assert students[..i + 1][..i] == students[..i];
      var s := students[i];
      var normalizedReg := NormalizedRegistration(s.registration);
      studentMap := studentMap[normalizedReg := s];
      if s.registration != normalizedReg {
        studentMap := studentMap[s.registration := s];
      }
    }
    assert students[..|students|] == students;
  }

  /** Every key some student of the list is stored under. */
  function AllKeys(students: seq<Student>): set<string>
  {
    AllKeysUnder(students, NormalizedRegistration)
  }

  /** The map holds exactly the students' keys. */
  lemma {:induction false} StudentMapKeys(students: seq<Student>)
    ensures StudentMap(students).Keys == AllKeys(students)
  {
    StoreUnderKeys(students, NormalizedRegistration);
  }

  /** Each student's keys are among all keys. */
  lemma {:induction false} OwnKeys(students: seq<Student>, i: nat)
    requires i < |students|
    ensures KeysOf(students[i]) <= AllKeys(students)
  {
    OwnKeysUnder(students, NormalizedRegistration, i);
  }

  /** The student stored under a key is the last one in the list that owns the key. */
  lemma {:induction false} StudentMapLastWins(students: seq<Student>, k: string) returns (j: nat)
    requires k in StudentMap(students)
    ensures j < |students| && StudentMap(students)[k] == students[j] && k in KeysOf(students[j])
    ensures k !in AllKeys(students[j + 1..])
  {
    j := LastWinsUnder(students, NormalizedRegistration, k);
  }

  // The student map for any normalization of registrations: stating these
  // over a parameter keeps the normalization's definition out of the proofs.

  function KeysUnder(s: Student, norm: string -> string): set<string>
  {
    {norm(s.registration), s.registration}
  }

  function StoreUnder(students: seq<Student>, norm: string -> string): map<string, Student>
  {
    if students == [] then map[]
    else
      var s := students[|students| - 1];
      var m := StoreUnder(students[..|students| - 1], norm)[norm(s.registration) := s];
      if s.registration != norm(s.registration) then m[s.registration := s] else m
  }

  function AllKeysUnder(students: seq<Student>, norm: string -> string): set<string>
  {
    if students == [] then {}
    else AllKeysUnder(students[..|students| - 1], norm) + KeysUnder(students[|students| - 1], norm)
  }

  lemma {:induction false} StoreUnderKeys(students: seq<Student>, norm: string -> string)
    ensures StoreUnder(students, norm).Keys == AllKeysUnder(students, norm)
  {
    if students != [] {
      StoreUnderKeys(students[..|students| - 1], norm);
    }
  }

  lemma {:induction false} OwnKeysUnder(students: seq<Student>, norm: string -> string, i: nat)
    requires i < |students|
    ensures KeysUnder(students[i], norm) <= AllKeysUnder(students, norm)
  {
    var n := |students| - 1;
    if i < n {
      OwnKeysUnder(students[..n], norm, i);
      assert students[..n][i] == students[i];
    }
  }

  lemma {:induction false} LastWinsUnder(students: seq<Student>, norm: string -> string, k: string) returns (j: nat)
    requires k in StoreUnder(students, norm)
    ensures j < |students| && StoreUnder(students, norm)[k] == students[j]
    ensures k in KeysUnder(students[j], norm) && k !in AllKeysUnder(students[j + 1..], norm)
  {
    var n := |students| - 1;
    var s := students[n];
    var init := students[..n];
    if k in KeysUnder(s, norm) {
      j := n;
      assert students[n + 1..] == [];
    } else {
      assert StoreUnder(students, norm)[k] == StoreUnder(init, norm)[k];
      j := LastWinsUnder(init, norm, k);
      assert init[j] == students[j];
      SuffixOfInit(students, j);
      AllKeysSnoc(init[j + 1..], norm, s);
    }
  }

  lemma {:induction false} SuffixOfInit<T>(xs: seq<T>, j: nat)
    requires j + 1 < |xs|
    ensures xs[j + 1..] == xs[..|xs| - 1][j + 1..] + [xs[|xs| - 1]]
  {
  }

  lemma {:induction false} AllKeysSnoc(students: seq<Student>, norm: string -> string, s: Student)
    ensures AllKeysUnder(students + [s], norm) == AllKeysUnder(students, norm) + KeysUnder(s, norm)
  {
    assert (students + [s])[..|students|] == students;
  }

  /** Matching a feed registration: the exact key first, then its integer form. */
  function Lookup(studentMap: map<string, Student>, matricula: string): (r: Option<Student>)
    ensures r.Some? ==> r.value in studentMap.Values
  {
    if matricula in studentMap then Some(studentMap[matricula])
    else
      match IntegerForm(matricula)
      case Some(form) => if form in studentMap then Some(studentMap[form]) else None
      case None => None
  }

  /** A registration made of digits is stored under its form without leading zeros. */
  lemma {:induction false} DigitRegistrationKey(reg: string)
    requires CtypeDigit(reg)
    ensures NormalizedRegistration(reg) == StripLeadingZeros(reg)
  {
    IntegerFormOfDigits(reg);
  }

  /** Leading zeros do not matter: a feed registration of digits finds a student
      whose digit registration agrees with it once leading zeros are stripped,
      and an exact key is always preferred. */
  lemma {:induction false} LeadingZerosTolerated(students: seq<Student>, i: nat, matricula: string)
    requires i < |students| && CtypeDigit(students[i].registration) && CtypeDigit(matricula)
    requires StripLeadingZeros(matricula) == StripLeadingZeros(students[i].registration)
    ensures Lookup(StudentMap(students), matricula).Some?
    ensures matricula in StudentMap(students) ==>
      Lookup(StudentMap(students), matricula) == Some(StudentMap(students)[matricula])
    ensures matricula !in StudentMap(students) ==>
      && StripLeadingZeros(matricula) in StudentMap(students)
      && Lookup(StudentMap(students), matricula) == Some(StudentMap(students)[StripLeadingZeros(matricula)])
  {
    DigitRegistrationKey(students[i].registration);
    IntegerFormOfDigits(matricula);
    StudentMapKeys(students);
    OwnKeys(students, i);
  }

  // ------------------------------------------------------------- line loop

  /** What the loop does with one line. */
  datatype LineOutcome =
    | Ignored                 // blank, or fewer than six fields
    | Unknown                 // no student for the registration: notFoundCount
    | Undated                 // date in neither form
    | OtherDay                // a valid date other than today: skippedDateCount
    | Hit(student: Student, code: string, time: string, clock: Option<int>)

  /** Classify one line, in the order the loop makes its checks: fields,
      student, date, today. */
  function Classify(studentMap: map<string, Student>, today: string, line: string): LineOutcome
  {
    var trimmed := Trim(line);
    if trimmed == [] then Ignored
    else
      var cols := Split(trimmed, ';');
      if |cols| < 6 then Ignored
      else Decide(Lookup(studentMap, Trim(cols[1])), ParseFeedDate(Trim(cols[3])), today,
                  Trim(cols[2]), Trim(cols[4]))
  }

  /** The outcome of a line with six fields, from its student and its date. */
  function Decide(student: Option<Student>, dateISO: Option<string>, today: string,
                  code: string, timeRaw: string): LineOutcome
  {
    match student
    case None => Unknown
    case Some(s) =>
      match dateISO
      case None => Undated
      case Some(d) =>
        if d != today then OtherDay
        else Hit(s, code, FormatTime(timeRaw), JsClockValue(timeRaw))
  }

  /** The outcome of every line. */
  function Outcomes(studentMap: map<string, Student>, today: string, lines: seq<string>): (os: seq<LineOutcome>)
    ensures |os| == |lines|
  {
    seq(|lines|, i requires 0 <= i < |lines| => Classify(studentMap, today, lines[i]))
  }

  /** The observation after a passage: the note alone on an empty observation,
      appended after " | " unless already there. */
  function AddNote(observation: string, note: string): (r: string)
    ensures Contains(r, note)
    ensures Contains(observation, note) ==> r == observation
    ensures StartsWith(r, observation)
  {
    if observation == [] then
      assert note == [] + note;
      ContainsAppended([], note);
      note
    else if Contains(observation, note) then observation
    else
      ContainsAppended(observation + " | ", note);
      observation + " | " + note
  }

  /** The flags after a passage at a clock value: up to 12:40 is morning, later is afternoon. */
  function MarkShift(f: ShiftFlags, clock: Option<int>): ShiftFlags
  {
    match clock
    case None => f
    case Some(t) => ShiftFlags(f.morning || t <= 1240, f.afternoon || t > 1240)
  }

  /** A passage of the student today: the day's presence set gains the
      student and the day's shift flags note the clock value. The set and the
      flags are created together, on the day's first passage. */
  function Track(st: ImportState, today: string, id: string, clock: Option<int>): ImportState
  {
    var firstOfDay := today !in st.present;
    var present := if firstOfDay then st.present[today := {}] else st.present;
    var flags := if firstOfDay then st.flags[today := ShiftFlags(false, false)] else st.flags;
    var f := if today in flags then flags[today] else ShiftFlags(false, false);
    st.(present := present[today := present[today] + {id}],
        flags := flags[today := MarkShift(f, clock)],
        dates := if firstOfDay then st.dates + [today] else st.dates)
  }

  /** The pending record of the student for today after a passage: the pending
      one, else a copy of the stored one, else a new one; it gets the note and
      status Present. Both counters go up. */
  function Record(st: ImportState, attendance: seq<AttendanceRecord>, today: string,
                  newId: (string, string) -> string, student: Student, note: string): ImportState
  {
    var key := (student.id, today);
    var idx := FindRecord(attendance, student.id, today);
    var base :=
      if key in st.pending then st.pending[key]
      else if idx >= 0 then attendance[idx]
      else AttendanceRecord(newId(student.id, today), student.id, today, Present, "");
    var record := base.(observation := AddNote(base.observation, note), status := Present);
    st.(pending := st.pending[key := record],
        order := if key in st.pending then st.order else st.order + [key],
        processed := st.processed + 1,
        success := st.success + 1)
  }

  function Step(st: ImportState, o: LineOutcome, attendance: seq<AttendanceRecord>, today: string,
                newId: (string, string) -> string): ImportState
  {
    match o
    case Ignored => st
    case Unknown => st.(notFound := st.notFound + 1)
    case Undated => st
    case OtherDay => st.(skippedDate := st.skippedDate + 1)
    case Hit(student, code, time, clock) =>
      Record(Track(st, today, student.id, clock), attendance, today, newId, student, PassageNote(code, time))
  }

  /** The state after the lines with the given outcomes, in order. */
  function Run(os: seq<LineOutcome>, attendance: seq<AttendanceRecord>, today: string,
               newId: (string, string) -> string): ImportState
  {
    if os == [] then Initial
    else Step(Run(os[..|os| - 1], attendance, today, newId), os[|os| - 1], attendance, today, newId)
  }

  lemma {:induction false} RunSnoc(os: seq<LineOutcome>, i: nat, attendance: seq<AttendanceRecord>, today: string,
                newId: (string, string) -> string)
    requires i < |os|
    ensures Run(os[..i + 1], attendance, today, newId)
         == Step(Run(os[..i], attendance, today, newId), os[i], attendance, today, newId)
  {
    assert os[..i + 1][..i] == os[..i];
  }

  /** The `for (const line of lines)` loop. */
  method ProcessLines(lines: seq<string>, studentMap: map<string, Student>, attendance: seq<AttendanceRecord>,
                      todayISO: string, newId: (string, string) -> string) returns (st: ImportState)
    ensures st == Run(Outcomes(studentMap, todayISO, lines), attendance, todayISO, newId)
  {
    ghost var os := Outcomes(studentMap, todayISO, lines);
    st := Initial;
    for i := 0 to |lines|
      invariant st == Run(os[..i], attendance, todayISO, newId)
    {
      RunSnoc(os, i, attendance, todayISO, newId);
      var outcome := ClassifyLine(lines[i], studentMap, todayISO);
      st := ProcessLine(st, outcome, attendance, todayISO, newId);
    }
    assert os[..|lines|] == os;
  }

  /** The body of the loop for one classified line; the outcomes other than
      a hit are the loop's `continue`s. */
  method ProcessLine(st: ImportState, outcome: LineOutcome, attendance: seq<AttendanceRecord>,
                     todayISO: string, newId: (string, string) -> string)
    returns (next: ImportState)
    ensures next == Step(st, outcome, attendance, todayISO, newId)
  {
    next := st;
    match outcome {
      case Ignored =>
      case Undated =>
      case Unknown =>
        next := next.(notFound := next.notFound + 1);
      case OtherDay =>
        next := next.(skippedDate := next.skippedDate + 1);
      case Hit(s, code, timeFormatted, timeInt) =>
        next := TrackPresence(next, todayISO, s.id, timeInt);
        next := RecordPassage(next, attendance, todayISO, newId, s, PassageNote(code, timeFormatted));
    }
  }

  /** `presentStudentsByDate` and `shiftsProcessedByDate` for a passage. */
  method TrackPresence(st: ImportState, todayISO: string, id: string, timeInt: Option<int>)
    returns (next: ImportState)
    ensures next == Track(st, todayISO, id, timeInt)
  {
    var presentStudentsByDate := st.present;
    var shiftsProcessedByDate := st.flags;
    next := st;
    if todayISO !in presentStudentsByDate {
      presentStudentsByDate := presentStudentsByDate[todayISO := {}];
      shiftsProcessedByDate := shiftsProcessedByDate[todayISO := ShiftFlags(false, false)];
      next := next.(dates := next.dates + [todayISO]);
    }
    presentStudentsByDate := presentStudentsByDate[todayISO := presentStudentsByDate[todayISO] + {id}];
    var flags := if todayISO in shiftsProcessedByDate then shiftsProcessedByDate[todayISO] else ShiftFlags(false, false);
    if timeInt.Some? {
      if timeInt.value <= 1240 {
        flags := flags.(morning := true);
      }
      if timeInt.value > 1240 {
        flags := flags.(afternoon := true);
      }
    }
    shiftsProcessedByDate := shiftsProcessedByDate[todayISO := flags];
    next := next.(present := presentStudentsByDate, flags := shiftsProcessedByDate);
  }

  /** The record lookup, note and `pendingUpdates.set` for a passage. */
  method RecordPassage(st: ImportState, attendance: seq<AttendanceRecord>, todayISO: string,
                       newId: (string, string) -> string, s: Student, newObs: string)
    returns (next: ImportState)
    ensures next == Record(st, attendance, todayISO, newId, s, newObs)
  {
    var key := (s.id, todayISO);
    var record: AttendanceRecord;
    var order := st.order;
    if key in st.pending {
      record := st.pending[key];
    } else {
      var idx := FindRecord(attendance, s.id, todayISO);
      if idx >= 0 {
        record := attendance[idx];
      } else {
        record := AttendanceRecord(newId(s.id, todayISO), s.id, todayISO, Present, "");
      }
      order := order + [key];
    }
    record := record.(observation := AddNote(record.observation, newObs));
    record := record.(status := Present);
    next := st.(pending := st.pending[key := record], order := order,
                processed := st.processed + 1, success := st.success + 1);
  }

  /** `studentMap.get(matriculaRaw)`, then `studentMap.get(String(parseInt(matriculaRaw, 10)))`. */
  method FindStudent(studentMap: map<string, Student>, matriculaRaw: string) returns (student: Option<Student>)
    ensures student == Lookup(studentMap, matriculaRaw)
  {
    student := None;
    if matriculaRaw in studentMap {
      student := Some(studentMap[matriculaRaw]);
    }
    if student.None? {
      var matriculaInt := IntegerForm(matriculaRaw);
      if matriculaInt.Some? && matriculaInt.value in studentMap {
        student := Some(studentMap[matriculaInt.value]);
      }
    }
  }

  /** The checks the loop makes on one line before it touches any state:
      fields, student (exact registration, then its integer form), date, today. */
  method ClassifyLine(line: string, studentMap: map<string, Student>, todayISO: string)
    returns (outcome: LineOutcome)
    ensures outcome == Classify(studentMap, todayISO, line)
  {
    var trimmed := Trim(line);
    if trimmed == [] {
      return Ignored;
    }
    var cols := Split(trimmed, ';');
    if |cols| < 6 {
      return Ignored;
    }
    var matriculaRaw := Trim(cols[1]);
    var code := Trim(cols[2]);
    var dateRaw := Trim(cols[3]);
    var timeRaw := Trim(cols[4]);
    var student := FindStudent(studentMap, matriculaRaw);
    if student.None? {
      return Unknown;
    }
    var dateISO := ParseFeedDate(dateRaw);
    if dateISO.None? {
      return Undated;
    }
    if dateISO.value != todayISO {
      return OtherDay;
    }
    var timeInt := JsClockValue(timeRaw);
    var timeFormatted := timeRaw;
    if |timeRaw| == 4 && ':' !in timeRaw {
      timeFormatted := timeRaw[0..2] + ":" + timeRaw[2..4];
    }
    return Hit(student.value, code, timeFormatted, timeInt);
  }

  // ------------------------------------------------------- the line loop's result

  /** A second passage with the same note leaves the observation as it is. */
  lemma {:induction false} AddNoteIdempotent(observation: string, note: string)
    ensures AddNote(AddNote(observation, note), note) == AddNote(observation, note)
  {
  }

  /** Whatever the observation held, it still holds after a note. */
  lemma {:induction false} AddNoteKeeps(observation: string, note: string, x: string)
    requires Contains(observation, x)
    ensures Contains(AddNote(observation, note), x)
  {
    if observation != [] && !Contains(observation, note) {
      assert observation + " | " + note == observation + (" | " + note);
      ContainsExtended(observation, " | " + note, x);
    }
  }

  predicate IsHit(o: LineOutcome) { o.Hit? }
  predicate IsUnknown(o: LineOutcome) { o.Unknown? }
  predicate IsOtherDay(o: LineOutcome) { o.OtherDay? }

  /** A passage with a clock value up to 12:40. */
  predicate MorningHit(o: LineOutcome)
  {
    o.Hit? && o.clock.Some? && o.clock.value <= 1240
  }

  /** A passage with a clock value after 12:40. */
  predicate AfternoonHit(o: LineOutcome)
  {
    o.Hit? && o.clock.Some? && o.clock.value > 1240
  }

  /** A passage of the student with the given id. */
  function HitBy(id: string): LineOutcome -> bool
  {
    (o: LineOutcome) => o.Hit? && o.student.id == id
  }

  /** Every pending record sits under its own (studentId, date), and the
      insertion order lists each pending key once. */
  ghost predicate WellKeyed(st: ImportState)
  {
    && (forall k | k in st.pending :: st.pending[k].studentId == k.0 && st.pending[k].date == k.1)
    && (forall k :: k in st.pending <==> k in st.order)
    && Distinct(st.order)
  }

  /** The counters after the loop: processed and success count the passages,
      notFound the unknown registrations, skippedDate the other days. */
  lemma {:induction false} RunCounters(os: seq<LineOutcome>, attendance: seq<AttendanceRecord>, today: string,
                                       newId: (string, string) -> string)
    ensures var st := Run(os, attendance, today, newId);
      && st.processed == CountWhere(os, IsHit)
      && st.success == CountWhere(os, IsHit)
      && st.notFound == CountWhere(os, IsUnknown)
      && st.skippedDate == CountWhere(os, IsOtherDay)
      && st.autoAbsence == 0
  {
    if os != [] {
      RunCounters(os[..|os| - 1], attendance, today, newId);
    }
  }

  /** After the loop every pending record is today's and Present. */
  lemma {:induction false} RunPending(os: seq<LineOutcome>, attendance: seq<AttendanceRecord>, today: string,
                                      newId: (string, string) -> string)
    ensures var st := Run(os, attendance, today, newId);
      && WellKeyed(st)
      && (forall k | k in st.pending :: k.1 == today && st.pending[k].status == Present)
  {
    if os != [] {
      var pre := Run(os[..|os| - 1], attendance, today, newId);
      RunPending(os[..|os| - 1], attendance, today, newId);
      StepPending(pre, os[|os| - 1], attendance, today, newId);
    }
  }

  /** After the loop the presence map, the flags and the list of dates hold
      today alone, exactly when there was a passage. */
  lemma {:induction false} RunDays(os: seq<LineOutcome>, attendance: seq<AttendanceRecord>, today: string,
                                   newId: (string, string) -> string)
    ensures var st := Run(os, attendance, today, newId);
      && st.present.Keys == st.flags.Keys
      && (CountWhere(os, IsHit) > 0 ==> st.present.Keys == {today} && st.dates == [today])
      && (CountWhere(os, IsHit) == 0 ==> st.present.Keys == {} && st.dates == [])
  {
    if os != [] {
      RunDays(os[..|os| - 1], attendance, today, newId);
    }
  }

  /** One step keeps the pending map well keyed; a passage puts a Present
      record under the student's key for today, noted with the passage, and
      leaves the other keys alone; any other outcome changes no record. */
  lemma {:induction false} StepPending(st: ImportState, o: LineOutcome, attendance: seq<AttendanceRecord>, today: string,
                    newId: (string, string) -> string)
    requires WellKeyed(st)
    ensures var r := Step(st, o, attendance, today, newId);
      && WellKeyed(r)
      && (!o.Hit? ==> r.pending == st.pending)
      && (o.Hit? ==>
            var key := (o.student.id, today);
            && r.pending.Keys == st.pending.Keys + {key}
            && r.pending[key].status == Present
            && Contains(r.pending[key].observation, PassageNote(o.code, o.time))
            && (key in st.pending ==>
                  r.pending[key].observation == AddNote(st.pending[key].observation, PassageNote(o.code, o.time)))
            && (forall k | k in st.pending && k != key :: r.pending[k] == st.pending[k]))
  {
    if o.Hit? {
      var t := Track(st, today, o.student.id, o.clock);
      assert t.pending == st.pending && t.order == st.order;
      RecordPending(t, attendance, today, newId, o.student, PassageNote(o.code, o.time));
    }
  }

  /** The record stage of a passage, on the pending map. */
  lemma {:induction false} RecordPending(st: ImportState, attendance: seq<AttendanceRecord>, today: string,
                      newId: (string, string) -> string, student: Student, note: string)
    requires WellKeyed(st)
    ensures var r := Record(st, attendance, today, newId, student, note);
      var key := (student.id, today);
      && WellKeyed(r)
      && r.pending.Keys == st.pending.Keys + {key}
      && r.pending[key].status == Present
      && Contains(r.pending[key].observation, note)
      && (key in st.pending ==> r.pending[key].observation == AddNote(st.pending[key].observation, note))
      && (forall k | k in st.pending && k != key :: r.pending[k] == st.pending[k])
  {
    var key := (student.id, today);
    if key !in st.pending {
      DistinctSnoc(st.order, key);
    }
  }

  /** A student is in today's presence set exactly when one of the lines
      was a passage of that student. */
  lemma {:induction false} RunPresentSet(os: seq<LineOutcome>, attendance: seq<AttendanceRecord>, today: string,
                                         newId: (string, string) -> string, id: string)
    ensures var st := Run(os, attendance, today, newId);
      (today in st.present && id in st.present[today]) <==> Occurs(os, HitBy(id))
  {
    if os != [] {
      RunPresentSet(os[..|os| - 1], attendance, today, newId, id);
      OccursSnoc(os, HitBy(id));
    }
  }

  /** A student has a pending record for today exactly when one of the lines
      was a passage of that student. */
  lemma {:induction false} RunPendingHas(os: seq<LineOutcome>, attendance: seq<AttendanceRecord>, today: string,
                                         newId: (string, string) -> string, id: string)
    ensures (id, today) in Run(os, attendance, today, newId).pending <==> Occurs(os, HitBy(id))
  {
    if os != [] {
      var pre := Run(os[..|os| - 1], attendance, today, newId);
      RunPendingHas(os[..|os| - 1], attendance, today, newId, id);
      RunPending(os[..|os| - 1], attendance, today, newId);
      OccursSnoc(os, HitBy(id));
      StepPending(pre, os[|os| - 1], attendance, today, newId);
    }
  }

  /** A student is in today's presence set, and has a pending record, exactly
      when one of the lines was a passage of that student. */
  lemma {:induction false} RunPresent(os: seq<LineOutcome>, attendance: seq<AttendanceRecord>, today: string,
                                      newId: (string, string) -> string, id: string)
    ensures var st := Run(os, attendance, today, newId);
      && ((today in st.present && id in st.present[today]) <==> Occurs(os, HitBy(id)))
      && ((id, today) in st.pending <==> Occurs(os, HitBy(id)))
  {
    RunPresentSet(os, attendance, today, newId, id);
    RunPendingHas(os, attendance, today, newId, id);
  }

  /** Today's morning flag is up exactly when a passage read up to 12:40, the
      afternoon flag exactly when one read later. */
  lemma {:induction false} RunFlags(os: seq<LineOutcome>, attendance: seq<AttendanceRecord>, today: string,
                                    newId: (string, string) -> string)
    ensures var st := Run(os, attendance, today, newId);
      && (today in st.flags && st.flags[today].morning <==> Occurs(os, MorningHit))
      && (today in st.flags && st.flags[today].afternoon <==> Occurs(os, AfternoonHit))
  {
    if os != [] {
      var init := os[..|os| - 1];
      var pre := Run(init, attendance, today, newId);
      RunFlags(init, attendance, today, newId);
      RunDays(init, attendance, today, newId);
      OccursSnoc(os, MorningHit);
      OccursSnoc(os, AfternoonHit);
      match os[|os| - 1]
      case Hit(student, code, time, clock) =>
        if today !in pre.present {
          CountPositive(init, IsHit);
          NoHitNoShift(init);
        }
      case _ =>
    }
  }

  /** Without passages there is no passage in either shift. */
  lemma {:induction false} NoHitNoShift(os: seq<LineOutcome>)
    requires !Occurs(os, IsHit)
    ensures !Occurs(os, MorningHit) && !Occurs(os, AfternoonHit)
  {
  }

  /** Each passage leaves the student's record for today Present, with the
      passage's note in its observation. */
  lemma {:induction false} RunHitRecorded(os: seq<LineOutcome>, i: nat, attendance: seq<AttendanceRecord>,
                                          today: string, newId: (string, string) -> string)
    requires i < |os| && os[i].Hit?
    ensures var st := Run(os, attendance, today, newId);
      var k := (os[i].student.id, today);
      && k in st.pending
      && st.pending[k].status == Present
      && Contains(st.pending[k].observation, PassageNote(os[i].code, os[i].time))
  {
    var init := os[..|os| - 1];
    var pre := Run(init, attendance, today, newId);
    var k := (os[i].student.id, today);
    var note := PassageNote(os[i].code, os[i].time);
    RunPending(init, attendance, today, newId);
    StepPending(pre, os[|os| - 1], attendance, today, newId);
    if i < |os| - 1 {
      assert init[i] == os[i];
      RunHitRecorded(init, i, attendance, today, newId);
      var last := os[|os| - 1];
      if last.Hit? && last.student.id == k.0 {
        AddNoteKeeps(pre.pending[k].observation, PassageNote(last.code, last.time), note);
      }
    }
  }

  // ------------------------------------------------------ automatic absences

  /** The student's shift, trimmed and lower-cased, is the morning or the
      afternoon one, and that shift had activity. */
  predicate ShiftActive(student: Student, f: ShiftFlags)
  {
    var shift := ToLower(Trim(student.shift));
    || ((shift == "manhã" || shift == "manha") && f.morning)
    || ((shift == "tarde" || shift == "vespertino") && f.afternoon)
  }

  /** The shift test for the students on a date with the given activity. */
  function ActiveIn(f: ShiftFlags): Student -> bool
  {
    (s: Student) => ShiftActive(s, f)
  }

  /** `presentStudentsByDate.get(date)`, empty when absent. */
  function PresentOn(present: map<string, set<string>>, date: string): set<string>
  {
    if date in present then present[date] else {}
  }

  /** `shiftsProcessedByDate.get(date)`, no activity when absent. */
  function FlagsOn(flags: map<string, ShiftFlags>, date: string): ShiftFlags
  {
    if date in flags then flags[date] else ShiftFlags(false, false)
  }

  /** The record an automatic absence creates. */
  function AbsenceRecord(newId: (string, string) -> string, studentId: string, date: string): AttendanceRecord
  {
    AttendanceRecord(newId(studentId, date), studentId, date, Absent, AutoAbsenceNote)
  }

  /** A student of an active shift (as `active` says), not met on the date, with neither a
      pending nor a stored record for it. */
  predicate Eligible(st: ImportState, attendance: seq<AttendanceRecord>, date: string, presentSet: set<string>,
                     active: bool, student: Student)
  {
    && active
    && student.id !in presentSet
    && (student.id, date) !in st.pending
    && FindRecord(attendance, student.id, date) < 0
  }

  /** The check for one student on one date, given whether the student's
      shift had activity. */
  function AbsenceStep(st: ImportState, attendance: seq<AttendanceRecord>, date: string, presentSet: set<string>,
                       active: bool, student: Student, newId: (string, string) -> string): ImportState
  {
    var key := (student.id, date);
    if Eligible(st, attendance, date, presentSet, active, student) then
      st.(pending := st.pending[key := AbsenceRecord(newId, student.id, date)],
          order := st.order + [key],
          autoAbsence := st.autoAbsence + 1)
    else st
  }

  /** `state.students.forEach` for one date. */
  function AbsencesOn(st: ImportState, attendance: seq<AttendanceRecord>, date: string, presentSet: set<string>,
                      active: Student -> bool, students: seq<Student>, newId: (string, string) -> string): ImportState
  {
    if students == [] then st
    else
      var student := students[|students| - 1];
      AbsenceStep(AbsencesOn(st, attendance, date, presentSet, active, students[..|students| - 1], newId),
                  attendance, date, presentSet, active(student), student, newId)
  }

  /** `presentStudentsByDate.forEach`, in the order the dates were met. */
  function Absences(st: ImportState, attendance: seq<AttendanceRecord>, dates: seq<string>,
                    present: map<string, set<string>>, flags: map<string, ShiftFlags>,
                    students: seq<Student>, newId: (string, string) -> string): ImportState
  {
    if dates == [] then st
    else
      var d := dates[|dates| - 1];
      AbsencesOn(Absences(st, attendance, dates[..|dates| - 1], present, flags, students, newId),
                 attendance, d, PresentOn(present, d), ActiveIn(FlagsOn(flags, d)), students, newId)
  }

  /** The absence pass over the state the line loop left. */
  function AbsencePass(st: ImportState, attendance: seq<AttendanceRecord>, students: seq<Student>,
                       newId: (string, string) -> string): ImportState
  {
    Absences(st, attendance, st.dates, st.present, st.flags, students, newId)
  }

  lemma {:induction false} AbsencesOnSnoc(st: ImportState, attendance: seq<AttendanceRecord>, date: string, presentSet: set<string>,
                       active: Student -> bool, students: seq<Student>, j: nat, newId: (string, string) -> string)
    requires j < |students|
    ensures AbsencesOn(st, attendance, date, presentSet, active, students[..j + 1], newId)
         == AbsenceStep(AbsencesOn(st, attendance, date, presentSet, active, students[..j], newId),
                        attendance, date, presentSet, active(students[j]), students[j], newId)
  {
    assert students[..j + 1][..j] == students[..j];
  }

  lemma {:induction false} AbsencesSnoc(st: ImportState, attendance: seq<AttendanceRecord>, dates: seq<string>, d: nat,
                     present: map<string, set<string>>, flags: map<string, ShiftFlags>,
                     students: seq<Student>, newId: (string, string) -> string)
    requires d < |dates|
    ensures Absences(st, attendance, dates[..d + 1], present, flags, students, newId)
         == AbsencesOn(Absences(st, attendance, dates[..d], present, flags, students, newId),
                       attendance, dates[d], PresentOn(present, dates[d]), ActiveIn(FlagsOn(flags, dates[d])),
                       students, newId)
  {
    assert dates[..d + 1][..d] == dates[..d];
  }

  /** The automatic-absence loop over the dates met. */
  method AutoAbsences(st0: ImportState, attendance: seq<AttendanceRecord>, students: seq<Student>,
                      newId: (string, string) -> string) returns (st: ImportState)
    ensures st == AbsencePass(st0, attendance, students, newId)
  {
    st := st0;
    for d := 0 to |st0.dates|
      invariant st == Absences(st0, attendance, st0.dates[..d], st0.present, st0.flags, students, newId)
    {
      AbsencesSnoc(st0, attendance, st0.dates, d, st0.present, st0.flags, students, newId);
      var dateISO := st0.dates[d];
      st := AbsencesForDate(st, attendance, dateISO, PresentOn(st0.present, dateISO),
                            FlagsOn(st0.flags, dateISO), students, newId);
    }
    assert st0.dates[..|st0.dates|] == st0.dates;
  }

  /** The loop over the students for one date. */
  method AbsencesForDate(st0: ImportState, attendance: seq<AttendanceRecord>, dateISO: string,
                         presentSet: set<string>, shiftFlags: ShiftFlags, students: seq<Student>,
                         newId: (string, string) -> string) returns (st: ImportState)
    ensures st == AbsencesOn(st0, attendance, dateISO, presentSet, ActiveIn(shiftFlags), students, newId)
  {
    st := st0;
    for j := 0 to |students|
      invariant st == AbsencesOn(st0, attendance, dateISO, presentSet, ActiveIn(shiftFlags), students[..j], newId)
    {
      AbsencesOnSnoc(st0, attendance, dateISO, presentSet, ActiveIn(shiftFlags), students, j, newId);
      var shouldProcess := ShouldProcess(students[j], shiftFlags);
      st := CheckAbsence(st, attendance, dateISO, presentSet, shouldProcess, students[j], newId);
    }
    assert students[..|students|] == students;
  }

  /** Whether the student's shift had activity. */
  method ShouldProcess(student: Student, shiftFlags: ShiftFlags) returns (shouldProcess: bool)
    ensures shouldProcess == ShiftActive(student, shiftFlags)
  {
    shouldProcess := false;
    var studentShift := ToLower(Trim(student.shift));
    if (studentShift == "manhã" || studentShift == "manha") && shiftFlags.morning {
      shouldProcess := true;
    }
    if (studentShift == "tarde" || studentShift == "vespertino") && shiftFlags.afternoon {
      shouldProcess := true;
    }
  }

  /** The body of the inner loop. */
  method CheckAbsence(st: ImportState, attendance: seq<AttendanceRecord>, dateISO: string, presentSet: set<string>,
                      shouldProcess: bool, student: Student, newId: (string, string) -> string)
    returns (next: ImportState)
    ensures next == AbsenceStep(st, attendance, dateISO, presentSet, shouldProcess, student, newId)
  {
    next := st;
    if shouldProcess && student.id !in presentSet {
      var key := (student.id, dateISO);
      if key !in st.pending {
        var existing := FindRecord(attendance, student.id, dateISO);
        if existing < 0 {
          next := st.(pending := st.pending[key := AbsenceRecord(newId, student.id, dateISO)],
                      order := st.order + [key],
                      autoAbsence := st.autoAbsence + 1);
        }
      }
    }
  }

  /** r is st with automatic absences added: nothing pending changes, each new
      key holds a fresh Absent record for a key with no stored record, and the
      counter counts the new keys. */
  ghost predicate AddsAbsences(st: ImportState, r: ImportState, attendance: seq<AttendanceRecord>,
                               newId: (string, string) -> string)
  {
    && WellKeyed(r)
    && r.present == st.present && r.flags == st.flags && r.dates == st.dates
    && r.processed == st.processed && r.success == st.success
    && r.notFound == st.notFound && r.skippedDate == st.skippedDate
    && (forall k | k in st.pending :: k in r.pending && r.pending[k] == st.pending[k])
    && (forall k | k in r.pending && k !in st.pending ::
          r.pending[k] == AbsenceRecord(newId, k.0, k.1) && FindRecord(attendance, k.0, k.1) < 0)
    && r.autoAbsence + |st.pending| == st.autoAbsence + |r.pending|
  }

  lemma {:induction false} AbsenceStepAdds(st: ImportState, attendance: seq<AttendanceRecord>, date: string, presentSet: set<string>,
                        active: bool, student: Student, newId: (string, string) -> string)
    requires WellKeyed(st)
    ensures AddsAbsences(st, AbsenceStep(st, attendance, date, presentSet, active, student, newId), attendance, newId)
  {
    var key := (student.id, date);
    if Eligible(st, attendance, date, presentSet, active, student) {
      DistinctSnoc(st.order, key);
    }
  }

  lemma {:induction false} AddsAbsencesTransitive(a: ImportState, b: ImportState, c: ImportState, attendance: seq<AttendanceRecord>,
                               newId: (string, string) -> string)
    requires WellKeyed(a) && AddsAbsences(a, b, attendance, newId) && AddsAbsences(b, c, attendance, newId)
    ensures AddsAbsences(a, c, attendance, newId)
  {
  }

  lemma {:induction false} AbsencesOnAdd(st: ImportState, attendance: seq<AttendanceRecord>, date: string,
                                         presentSet: set<string>, active: Student -> bool, students: seq<Student>,
                                         newId: (string, string) -> string)
    requires WellKeyed(st)
    ensures AddsAbsences(st, AbsencesOn(st, attendance, date, presentSet, active, students, newId), attendance, newId)
  {
    if students != [] {
      var mid := AbsencesOn(st, attendance, date, presentSet, active, students[..|students| - 1], newId);
      AbsencesOnAdd(st, attendance, date, presentSet, active, students[..|students| - 1], newId);
      var student := students[|students| - 1];
      AbsenceStepAdds(mid, attendance, date, presentSet, active(student), student, newId);
      AddsAbsencesTransitive(st, mid, AbsencesOn(st, attendance, date, presentSet, active, students, newId),
                             attendance, newId);
    }
  }

  /** The absence pass keeps every pending record, adds only fresh Absent
      records for keys with no stored record, and counts what it adds. */
  lemma {:induction false} AbsencesAdd(st: ImportState, attendance: seq<AttendanceRecord>, dates: seq<string>,
                                       present: map<string, set<string>>, flags: map<string, ShiftFlags>,
                                       students: seq<Student>, newId: (string, string) -> string)
    requires WellKeyed(st)
    ensures AddsAbsences(st, Absences(st, attendance, dates, present, flags, students, newId), attendance, newId)
  {
    if dates != [] {
      var d := dates[|dates| - 1];
      var mid := Absences(st, attendance, dates[..|dates| - 1], present, flags, students, newId);
      AbsencesAdd(st, attendance, dates[..|dates| - 1], present, flags, students, newId);
      AbsencesOnAdd(mid, attendance, d, PresentOn(present, d), ActiveIn(FlagsOn(flags, d)), students, newId);
      AddsAbsencesTransitive(st, mid, Absences(st, attendance, dates, present, flags, students, newId),
                             attendance, newId);
    }
  }

  /** Every student of an active shift who was not met on the date and has no
      stored record for it ends up with a pending record for the date. */
  lemma {:induction false} AbsencesOnCover(st: ImportState, attendance: seq<AttendanceRecord>, date: string,
                                           presentSet: set<string>, active: Student -> bool, students: seq<Student>,
                                           newId: (string, string) -> string, j: nat)
    requires j < |students| && active(students[j]) && students[j].id !in presentSet
    requires FindRecord(attendance, students[j].id, date) < 0
    ensures (students[j].id, date) in AbsencesOn(st, attendance, date, presentSet, active, students, newId).pending
  {
    var n := |students| - 1;
    var init := students[..n];
    var mid := AbsencesOn(st, attendance, date, presentSet, active, init, newId);
    AbsenceStepKeeps(mid, attendance, date, presentSet, active(students[n]), students[n], newId);
    if j < n {
      assert init[j] == students[j];
      AbsencesOnCover(st, attendance, date, presentSet, active, init, newId, j);
    }
  }

  /** One check keeps every pending key, and gives an eligible student one. */
  lemma {:induction false} AbsenceStepKeeps(st: ImportState, attendance: seq<AttendanceRecord>, date: string, presentSet: set<string>,
                         active: bool, student: Student, newId: (string, string) -> string)
    ensures st.pending.Keys <= AbsenceStep(st, attendance, date, presentSet, active, student, newId).pending.Keys
    ensures active && student.id !in presentSet && FindRecord(attendance, student.id, date) < 0 ==>
      (student.id, date) in AbsenceStep(st, attendance, date, presentSet, active, student, newId).pending
  {
  }

  /** The only key one check can add is the student's for the date, when the
      shift is active and the student was not met. */
  lemma {:induction false} AbsenceStepNew(st: ImportState, attendance: seq<AttendanceRecord>, date: string, presentSet: set<string>,
                       active: bool, student: Student, newId: (string, string) -> string, k: Key)
    requires k in AbsenceStep(st, attendance, date, presentSet, active, student, newId).pending && k !in st.pending
    ensures k == (student.id, date) && active && student.id !in presentSet
  {
  }

  /** A key the pass over one date adds is that date's, for a student of an
      active shift who was not met. */
  lemma {:induction false} AbsencesOnNew(st: ImportState, attendance: seq<AttendanceRecord>, date: string,
                                         presentSet: set<string>, active: Student -> bool, students: seq<Student>,
                                         newId: (string, string) -> string, k: Key)
    requires WellKeyed(st)
    requires k in AbsencesOn(st, attendance, date, presentSet, active, students, newId).pending && k !in st.pending
    ensures k.1 == date && k.0 !in presentSet
    ensures exists j :: 0 <= j < |students| && students[j].id == k.0 && active(students[j])
  {
    var n := |students| - 1;
    var init := students[..n];
    var mid := AbsencesOn(st, attendance, date, presentSet, active, init, newId);
    AbsencesOnAdd(st, attendance, date, presentSet, active, init, newId);
    if k in mid.pending {
      AbsencesOnNew(st, attendance, date, presentSet, active, init, newId, k);
      var j :| 0 <= j < n && init[j].id == k.0 && active(init[j]);
      assert students[j] == init[j];
    } else {
      AbsenceStepNew(mid, attendance, date, presentSet, active(students[n]), students[n], newId, k);
    }
  }

  /** Over all dates: every eligible student gets a pending record. */
  lemma {:induction false} AbsencesCover(st: ImportState, attendance: seq<AttendanceRecord>, dates: seq<string>,
                                         present: map<string, set<string>>, flags: map<string, ShiftFlags>,
                                         students: seq<Student>, newId: (string, string) -> string, i: nat, j: nat)
    requires WellKeyed(st)
    requires i < |dates| && j < |students|
    requires ShiftActive(students[j], FlagsOn(flags, dates[i])) && students[j].id !in PresentOn(present, dates[i])
    requires FindRecord(attendance, students[j].id, dates[i]) < 0
    ensures (students[j].id, dates[i]) in Absences(st, attendance, dates, present, flags, students, newId).pending
  {
    var init := dates[..|dates| - 1];
    var d := dates[|dates| - 1];
    var mid := Absences(st, attendance, init, present, flags, students, newId);
    AbsencesAdd(st, attendance, init, present, flags, students, newId);
    AbsencesOnAdd(mid, attendance, d, PresentOn(present, d), ActiveIn(FlagsOn(flags, d)), students, newId);
    if i < |dates| - 1 {
      assert init[i] == dates[i];
      AbsencesCover(st, attendance, init, present, flags, students, newId, i, j);
    } else {
      assert ActiveIn(FlagsOn(flags, d))(students[j]);
      AbsencesOnCover(mid, attendance, d, PresentOn(present, d), ActiveIn(FlagsOn(flags, d)), students, newId, j);
    }
  }

  /** Over all dates: a key the pass adds is for one of the dates, for a
      student of a shift active that day who was not met that day. */
  lemma {:induction false} AbsencesNew(st: ImportState, attendance: seq<AttendanceRecord>, dates: seq<string>,
                                       present: map<string, set<string>>, flags: map<string, ShiftFlags>,
                                       students: seq<Student>, newId: (string, string) -> string, k: Key)
    requires WellKeyed(st)
    requires k in Absences(st, attendance, dates, present, flags, students, newId).pending && k !in st.pending
    ensures k.1 in dates && k.0 !in PresentOn(present, k.1)
    ensures exists j :: 0 <= j < |students| && students[j].id == k.0 && ShiftActive(students[j], FlagsOn(flags, k.1))
  {
    var init := dates[..|dates| - 1];
    var d := dates[|dates| - 1];
    var mid := Absences(st, attendance, init, present, flags, students, newId);
    AbsencesAdd(st, attendance, init, present, flags, students, newId);
    if k in mid.pending {
      AbsencesNew(st, attendance, init, present, flags, students, newId, k);
    } else {
      AbsencesOnNew(mid, attendance, d, PresentOn(present, d), ActiveIn(FlagsOn(flags, d)), students, newId, k);
    }
  }

  // ------------------------------------------------------------------ merge

  /** `newAttendance.findIndex(a => a.id === id)`: the first record with the id, or -1. */
  function FindById(list: seq<AttendanceRecord>, id: string): int
  {
    FirstIndex(list, (a: AttendanceRecord) => a.id, id)
  }

  /** One record into the list: it replaces the first record with its id, or
      is appended when there is none. */
  function MergeOne(list: seq<AttendanceRecord>, record: AttendanceRecord): seq<AttendanceRecord>
  {
    var idx := FindById(list, record.id);
    if idx >= 0 then list[idx := record] else list + [record]
  }

  /** The records merged one after the other, in order. */
  function MergeAll(list: seq<AttendanceRecord>, records: seq<AttendanceRecord>): seq<AttendanceRecord>
  {
    if records == [] then list
    else MergeOne(MergeAll(list, records[..|records| - 1]), records[|records| - 1])
  }

  /** The ids of a list of records. */
  function Ids(list: seq<AttendanceRecord>): set<string>
  {
    set a | a in list :: a.id
  }

  /** After one merge the record is in the list, under an id no other
      position shares with it if it was already so, and every record with
      another id stays where it was. */
  lemma {:induction false} MergeOneSpec(list: seq<AttendanceRecord>, record: AttendanceRecord)
    ensures var r := MergeOne(list, record);
      && record in r
      && |r| == (if record.id in Ids(list) then |list| else |list| + 1)
      && Ids(r) == Ids(list) + {record.id}
      && (forall j :: 0 <= j < |list| && list[j].id != record.id ==> r[j] == list[j])
  {
    var idx := FindById(list, record.id);
    var r := MergeOne(list, record);
    if idx >= 0 {
      assert record.id in Ids(list);
      assert r[idx] == record;
      forall id | id in Ids(list) ensures id in Ids(r) {
        var a :| a in list && a.id == id;
        var j :| 0 <= j < |list| && list[j] == a;
        assert j == idx || r[j] == a;
      }
    } else {
      assert r[|list|] == record;
    }
  }

  /** A merge keeps the records whose id no merged record has where they
      were, and the ids present are the old ones and the merged ones. */
  lemma {:induction false} MergeAllKeeps(list: seq<AttendanceRecord>, records: seq<AttendanceRecord>)
    ensures var r := MergeAll(list, records);
      && |list| <= |r|
      && Ids(r) == Ids(list) + Ids(records)
      && (forall j :: 0 <= j < |list| && list[j].id !in Ids(records) ==> r[j] == list[j])
  {
    if records != [] {
      var init := records[..|records| - 1];
      var last := records[|records| - 1];
      MergeAllKeeps(list, init);
      MergeOneSpec(MergeAll(list, init), last);
      IdsSnoc(records);
    }
  }

  lemma {:induction false} IdsSnoc(records: seq<AttendanceRecord>)
    requires records != []
    ensures Ids(records) == Ids(records[..|records| - 1]) + {records[|records| - 1].id}
  {
    assert records == records[..|records| - 1] + [records[|records| - 1]];
  }

  /** A merge ends with every merged record whose id no later merged record has. */
  lemma {:induction false} MergeAllHolds(list: seq<AttendanceRecord>, records: seq<AttendanceRecord>, i: nat)
    requires i < |records| && records[i].id !in Ids(records[i + 1..])
    ensures records[i] in MergeAll(list, records)
  {
    var init := records[..|records| - 1];
    var last := records[|records| - 1];
    var mid := MergeAll(list, init);
    MergeOneSpec(mid, last);
    if i < |records| - 1 {
      assert init[i] == records[i];
      assert records[i + 1..] == init[i + 1..] + [last];
      assert last in records[i + 1..];
      assert Ids(init[i + 1..]) <= Ids(records[i + 1..]);
      MergeAllHolds(list, init, i);
      var j :| 0 <= j < |mid| && mid[j] == records[i];
    }
  }

  /** The `pendingUpdates.forEach` that merges into the list. */
  method Merge(attendance: seq<AttendanceRecord>, records: seq<AttendanceRecord>)
    returns (newAttendance: seq<AttendanceRecord>)
    ensures newAttendance == MergeAll(attendance, records)
  {
    newAttendance := attendance;
    for i := 0 to |records|
      invariant newAttendance == MergeAll(attendance, records[..i])
    {
      assert records[..i + 1][..i] == records[..i];
      var record := records[i];
      var idx := FindById(newAttendance, record.id);
      if idx >= 0 {
        newAttendance := newAttendance[idx := record];
      } else {
        newAttendance := newAttendance + [record];
      }
    }
    assert records[..|records|] == records;
  }

  // ------------------------------------------------------------- the import

  /** `pendingUpdates.values()`: the pending records in insertion order. */
  function PendingRecords(st: ImportState): (rs: seq<AttendanceRecord>)
    requires forall k :: k in st.order ==> k in st.pending
    ensures |rs| == |st.order|
    ensures forall i :: 0 <= i < |st.order| ==> rs[i] == st.pending[st.order[i]]
  {
    seq(|st.order|, i requires 0 <= i < |st.order| => st.pending[st.order[i]])
  }

  /** The lines of today's file: the line loop, then the absence pass. */
  function ClientImport(text: string, students: seq<Student>, attendance: seq<AttendanceRecord>, today: string,
                        newId: (string, string) -> string): ImportState
  {
    var os := Outcomes(StudentMap(students), today, Split(text, '\n'));
    AbsencePass(Run(os, attendance, today, newId), attendance, students, newId)
  }

  /** The import's records sit under their own keys, in insertion order, all for today. */
  lemma {:induction false} ClientImportWellKeyed(text: string, students: seq<Student>, attendance: seq<AttendanceRecord>,
                              today: string, newId: (string, string) -> string)
    ensures var st := ClientImport(text, students, attendance, today, newId);
      && WellKeyed(st)
      && (forall k | k in st.pending :: k.1 == today)
  {
    var os := Outcomes(StudentMap(students), today, Split(text, '\n'));
    var run := Run(os, attendance, today, newId);
    RunPending(os, attendance, today, newId);
    RunDays(os, attendance, today, newId);
    AbsencesAdd(run, attendance, run.dates, run.present, run.flags, students, newId);
    var st := ClientImport(text, students, attendance, today, newId);
    forall k | k in st.pending
      ensures k.1 == today
    {
      if k !in run.pending {
        AbsencesNew(run, attendance, run.dates, run.present, run.flags, students, newId, k);
      }
    }
  }

  /** `handleImportTurnstile` after the file is read: the pending records and
      counters, and the attendance list they are merged into. */
  method ImportTurnstile(text: string, students: seq<Student>, attendance: seq<AttendanceRecord>,
                         current: seq<AttendanceRecord>, todayISO: string, newId: (string, string) -> string)
    returns (st: ImportState, newAttendance: seq<AttendanceRecord>)
    ensures st == ClientImport(text, students, attendance, todayISO, newId)
    ensures WellKeyed(st)
    ensures newAttendance == MergeAll(current, PendingRecords(st))
  {
    var lines := Split(text, '\n');
    var studentMap := BuildStudentMap(students);
    st := ProcessLines(lines, studentMap, attendance, todayISO, newId);
    st := AutoAbsences(st, attendance, students, newId);
    ClientImportWellKeyed(text, students, attendance, todayISO, newId);
    newAttendance := Merge(current, PendingRecords(st));
  }

  /** What the import leaves for a student of the list on today's date: a
      Present record when a line matched the student; otherwise an automatic
      Absent record when the student's shift had activity and no record was
      stored; a stored record of a student no line matched is left alone. */
  lemma {:induction false} ClientImportRecords(text: string, students: seq<Student>, attendance: seq<AttendanceRecord>,
                            today: string, newId: (string, string) -> string, j: nat)
    requires j < |students|
    ensures var os := Outcomes(StudentMap(students), today, Split(text, '\n'));
      var st := ClientImport(text, students, attendance, today, newId);
      var s := students[j];
      var k := (s.id, today);
      && (Occurs(os, HitBy(s.id)) ==> k in st.pending && st.pending[k].status == Present)
      && (!Occurs(os, HitBy(s.id)) && ShiftActive(s, FlagsOn(st.flags, today))
            && FindRecord(attendance, s.id, today) < 0
          ==> k in st.pending && st.pending[k] == AbsenceRecord(newId, s.id, today))
      && (!Occurs(os, HitBy(s.id)) && FindRecord(attendance, s.id, today) >= 0 ==> k !in st.pending)
  {
    var os := Outcomes(StudentMap(students), today, Split(text, '\n'));
    var run := Run(os, attendance, today, newId);
    var s := students[j];
    var k := (s.id, today);
    RunPending(os, attendance, today, newId);
    RunPresent(os, attendance, today, newId, s.id);
    RunDays(os, attendance, today, newId);
    AbsencesAdd(run, attendance, run.dates, run.present, run.flags, students, newId);
    if !Occurs(os, HitBy(s.id)) && ShiftActive(s, FlagsOn(run.flags, today))
       && FindRecord(attendance, s.id, today) < 0 {
      assert today in run.flags;
      assert run.dates == [today];
      assert s.id !in PresentOn(run.present, today);
      AbsencesCover(run, attendance, run.dates, run.present, run.flags, students, newId, 0, j);
    }
  }

  // -------------------------------------------------------- the final notice

  /** The warning the summary ends with, if any. */
  datatype Notice =
    | Quiet
    | OtherDates(skipped: nat, date: string)   // lines of other days were ignored
    | NothingToday(date: string)               // no line of today

  /** `todayISO.split('-').reverse().join('/')`. */
  function DisplayDate(iso: string): string
  {
    Join(Reverse(Split(iso, '-')), "/")
  }

  /** The warning after the counts: ignored days first, else no line of today. */
  function ImportNotice(st: ImportState, lineCount: nat, todayISO: string): Notice
  {
    if st.skippedDate > 0 then OtherDates(st.skippedDate, DisplayDate(todayISO))
    else if st.processed == 0 && lineCount > 0 then NothingToday(DisplayDate(todayISO))
    else Quiet
  }

  /** The file always has a line, so the import warns about other days exactly
      when a line was of another day, and about today exactly when no line
      was of today or of another day. */
  lemma {:induction false} ClientNotice(text: string, students: seq<Student>, attendance: seq<AttendanceRecord>,
                     today: string, newId: (string, string) -> string)
    ensures var os := Outcomes(StudentMap(students), today, Split(text, '\n'));
      var n := ImportNotice(ClientImport(text, students, attendance, today, newId), |Split(text, '\n')|, today);
      && (n.OtherDates? <==> Occurs(os, IsOtherDay))
      && (n.OtherDates? ==> n.skipped == CountWhere(os, IsOtherDay))
      && (n.NothingToday? <==> !Occurs(os, IsOtherDay) && !Occurs(os, IsHit))
  {
    var os := Outcomes(StudentMap(students), today, Split(text, '\n'));
    var run := Run(os, attendance, today, newId);
    RunCounters(os, attendance, today, newId);
    RunPending(os, attendance, today, newId);
    AbsencesAdd(run, attendance, run.dates, run.present, run.flags, students, newId);
    CountPositive(os, IsOtherDay);
    CountPositive(os, IsHit);
  }

  /** `today.getFullYear() + '-' + String(today.getMonth() + 1).padStart(2, '0')
      + '-' + String(today.getDate()).padStart(2, '0')`. */
  function TodayISO(year: nat, monthIndex: nat, day: nat): string
  {
    NatToString(year) + "-" + TwoDigits(monthIndex + 1) + "-" + TwoDigits(day)
  }

  /** `String(n).padStart(2, '0')`. */
  function TwoDigits(n: nat): string
  {
    PadStart(NatToString(n), 2, '0')
  }

  lemma {:induction false} TwoDigitsShape(n: nat)
    requires n < 100
    ensures |TwoDigits(n)| == 2 && AllDigits(TwoDigits(n))
  {
    NatToStringLength(n);
    var p := TwoDigits(n);
    var d := NatToString(n);
    forall i | 0 <= i < 2
      ensures IsDigit(p[i])
    {
      if i >= 2 - |d| {
        assert p[i] == d[i - (2 - |d|)];
      }
    }
  }

  /** Today's date in either of the feed's forms reads as today. */
  lemma {:induction false} TodayFeedDate(year: nat, monthIndex: nat, day: nat)
    requires 1000 <= year < 10000 && monthIndex < 12 && 1 <= day <= 31
    ensures var dd := TwoDigits(day);
      var mm := TwoDigits(monthIndex + 1);
      var yyyy := NatToString(year);
      && ParseFeedDate(dd + mm + yyyy) == Some(TodayISO(year, monthIndex, day))
      && ParseFeedDate(dd + "/" + mm + "/" + yyyy) == Some(TodayISO(year, monthIndex, day))
  {
    var dd := TwoDigits(day);
    var mm := TwoDigits(monthIndex + 1);
    var yyyy := NatToString(year);
    TwoDigitsShape(day);
    TwoDigitsShape(monthIndex + 1);
    NatToStringLength(year);
    DigitsAreInert(dd);
    DigitsAreInert(mm);
    DigitsAreInert(yyyy);
    FeedDateRoundTrip(dd, mm, yyyy);
    JoinThree(dd, mm, yyyy, "/");
  }

  /** An ISO date of three dash-free parts is shown as day/month/year. */
  lemma {:induction false} DisplayOfIso(y: string, m: string, d: string)
    requires '-' !in y && '-' !in m && '-' !in d
    ensures DisplayDate(y + "-" + m + "-" + d) == d + "/" + m + "/" + y
  {
    JoinThree(y, m, d, "-");
    SplitJoin([y, m, d], '-');
    assert Reverse([y, m, d]) == [d, m, y];
    JoinThree(d, m, y, "/");
  }

  /** The warning shows today as day/month/year. */
  lemma {:induction false} TodayDisplay(year: nat, monthIndex: nat, day: nat)
    requires monthIndex < 99 && day < 100
    ensures DisplayDate(TodayISO(year, monthIndex, day))
         == TwoDigits(day) + "/" + TwoDigits(monthIndex + 1) + "/" + NatToString(year)
  {
    TwoDigitsShape(day);
    TwoDigitsShape(monthIndex + 1);
    DisplayOfIso(NatToString(year), TwoDigits(monthIndex + 1), TwoDigits(day));
  }
}
