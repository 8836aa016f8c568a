/**
 * Attendance bookkeeping in the front end: the list of attendance records
 * kept in the app state, the status and observation handlers of App.tsx
 * that write one record per (student, date), the record removal, and the
 * attendance screen that shows each student's effective status on the
 * selected date (AttendanceView.tsx).
 *
 * Random record ids are a parameter (`freshId`); a missing observation is
 * the empty string. `localeCompare` on names is the code-point order LexLe.
 */
module Attendance {
  import opened Wrappers
  import opened Text
  import opened Domain
  import opened Folds
  import opened Sorting

  // ------------------------------------------------- reading the list

  /** `find` returns the first record of the key, so any index meeting the
      three conditions of FindRecord's contract is the one it returns. */
  lemma {:induction false} FindRecordUnique(attendance: seq<AttendanceRecord>, studentId: string, date: string, k: int)
    requires -1 <= k < |attendance|
    requires k >= 0 ==> IsFor(attendance[k], studentId, date)
    requires forall j :: 0 <= j < (if k < 0 then |attendance| else k) ==> !IsFor(attendance[j], studentId, date)
    ensures FindRecord(attendance, studentId, date) == k
  {
    var m := FindRecord(attendance, studentId, date);
    assert m >= 0 ==> IsFor(attendance[m], studentId, date);
  }

  /** The status shown for a student on a date: the record's, or Present
      when the student has no record for it. */
  function EffectiveStatus(attendance: seq<AttendanceRecord>, studentId: string, date: string): string
  {
    var i := FindRecord(attendance, studentId, date);
    if i >= 0 then attendance[i].status else Present
  }

  /** The observation shown for a student on a date: the record's, or ''. */
  function EffectiveObservation(attendance: seq<AttendanceRecord>, studentId: string, date: string): string
  {
    var i := FindRecord(attendance, studentId, date);
    if i >= 0 then attendance[i].observation else ""
  }

  // --------------------------------------------------- writing the list

  /** `newAttendance`: the record replaces the key's first record in a copy
      of the list, or is pushed at its end when the key has none. */
  function Saved(attendance: seq<AttendanceRecord>, studentId: string, date: string, record: AttendanceRecord)
    : seq<AttendanceRecord>
  {
    var i := FindRecord(attendance, studentId, date);
    if i >= 0 then attendance[i := record] else attendance + [record]
  }

  /** `recordToSave` of `handleAttendanceUpdate`. */
  function StatusRecord(attendance: seq<AttendanceRecord>, studentId: string, date: string, status: string,
                        freshId: string): AttendanceRecord
  {
    var i := FindRecord(attendance, studentId, date);
    if i >= 0 then attendance[i].(status := status) else AttendanceRecord(freshId, studentId, date, status, "")
  }

  /** `record` of `handleAttendanceObservation`: a new record is Present. */
  function ObservationRecord(attendance: seq<AttendanceRecord>, studentId: string, date: string, observation: string,
                             freshId: string): AttendanceRecord
  {
    var i := FindRecord(attendance, studentId, date);
    if i >= 0 then attendance[i].(observation := observation)
    else AttendanceRecord(freshId, studentId, date, Present, observation)
  }

  function WithStatus(attendance: seq<AttendanceRecord>, studentId: string, date: string, status: string,
                      freshId: string): seq<AttendanceRecord>
  {
    Saved(attendance, studentId, date, StatusRecord(attendance, studentId, date, status, freshId))
  }

  function WithObservation(attendance: seq<AttendanceRecord>, studentId: string, date: string, observation: string,
                           freshId: string): seq<AttendanceRecord>
  {
    Saved(attendance, studentId, date, ObservationRecord(attendance, studentId, date, observation, freshId))
  }

  /** `handleRemoveAttendanceRecord` once confirmed: every record of the key goes. */
  function Removed(attendance: seq<AttendanceRecord>, studentId: string, date: string): seq<AttendanceRecord>
  {
    Filter(attendance, (a: AttendanceRecord) => !IsFor(a, studentId, date))
  }

  /** The handlers' share of the app state: the attendance list and the date
      the attendance screen has selected. */
  class AttendanceBook {
    var attendance: seq<AttendanceRecord>
    var attendanceDate: string

    constructor(attendance: seq<AttendanceRecord>, attendanceDate: string)
      ensures this.attendance == attendance && this.attendanceDate == attendanceDate
    {
      this.attendance := attendance;
      this.attendanceDate := attendanceDate;
    }

    /** Copies the list, assigns the record into the key's slot or pushes it,
        and stores the copy. */
    method Store(existingIndex: int, record: AttendanceRecord)
      requires existingIndex == FindRecord(attendance, record.studentId, record.date)
      modifies this
      ensures attendance == Saved(old(attendance), record.studentId, record.date, record)
      ensures attendanceDate == old(attendanceDate)
    {
      var current := attendance;
      var newAttendance := new AttendanceRecord[|current|](i requires 0 <= i < |current| => current[i]);
      if existingIndex >= 0 {
        newAttendance[existingIndex] := record;
        attendance := newAttendance[..];
      } else {
        attendance := newAttendance[..] + [record];
      }
    }

    /** `handleAttendanceUpdate`: the key's record takes the new status, or a
        new record with it is appended. */
    method UpdateStatus(studentId: string, status: string, freshId: string)
      modifies this
      ensures attendance == WithStatus(old(attendance), studentId, old(attendanceDate), status, freshId)
      ensures attendanceDate == old(attendanceDate)
    {
      var existingIndex := FindRecord(attendance, studentId, attendanceDate);
      var recordToSave: AttendanceRecord;
      if existingIndex >= 0 {
        recordToSave := attendance[existingIndex].(status := status);
      } else {
        recordToSave := AttendanceRecord(freshId, studentId, attendanceDate, status, "");
      }
      Store(existingIndex, recordToSave);
    }

    /** `handleAttendanceObservation`: the key's record takes the new
        observation, or a new Present record with it is appended. */
    method UpdateObservation(studentId: string, observation: string, freshId: string)
      modifies this
      ensures attendance == WithObservation(old(attendance), studentId, old(attendanceDate), observation, freshId)
      ensures attendanceDate == old(attendanceDate)
    {
      var existingIndex := FindRecord(attendance, studentId, attendanceDate);
      var record: AttendanceRecord;
      if existingIndex >= 0 {
        record := attendance[existingIndex].(observation := observation);
      } else {
        record := AttendanceRecord(freshId, studentId, attendanceDate, Present, observation);
      }
      Store(existingIndex, record);
    }

    /** `handleRemoveAttendanceRecord` once confirmed. */
    method RemoveRecord(studentId: string)
      modifies this
      ensures attendance == Removed(old(attendance), studentId, old(attendanceDate))
      ensures attendanceDate == old(attendanceDate)
    {
      attendance := Removed(attendance, studentId, attendanceDate);
    }
  }

  // ------------------------------------------------ what a write leaves

  /** A save puts the record at the key's first position, keeps every other
      position, and grows the list only when the key had no record. */
  lemma {:induction false} SavedShape(attendance: seq<AttendanceRecord>, studentId: string, date: string, record: AttendanceRecord)
    requires IsFor(record, studentId, date)
    ensures var r := Saved(attendance, studentId, date, record);
      var i := FindRecord(attendance, studentId, date);
      var at := if i >= 0 then i else |attendance|;
      && |r| == (if i >= 0 then |attendance| else |attendance| + 1)
      && FindRecord(r, studentId, date) == at && r[at] == record
      && (forall j :: 0 <= j < |attendance| && j != at ==> r[j] == attendance[j])
  {
    var r := Saved(attendance, studentId, date, record);
    var i := FindRecord(attendance, studentId, date);
    FindRecordUnique(r, studentId, date, if i >= 0 then i else |attendance|);
  }

  /** A save for one key leaves what every other key shows. */
  lemma {:induction false} SavedOtherKey(attendance: seq<AttendanceRecord>, studentId: string, date: string, record: AttendanceRecord,
                      otherId: string, otherDate: string)
    requires IsFor(record, studentId, date)
    requires (otherId, otherDate) != (studentId, date)
    ensures FindRecord(Saved(attendance, studentId, date, record), otherId, otherDate)
         == FindRecord(attendance, otherId, otherDate)
    ensures var k := FindRecord(attendance, otherId, otherDate);
      k >= 0 ==> Saved(attendance, studentId, date, record)[k] == attendance[k]
  {
    var r := Saved(attendance, studentId, date, record);
    var k := FindRecord(attendance, otherId, otherDate);
    SavedShape(attendance, studentId, date, record);
    FindRecordUnique(r, otherId, otherDate, k);
  }

  /** A save keeps the list at one record per (student, date). */
  lemma {:induction false} SavedOnePerKey(attendance: seq<AttendanceRecord>, studentId: string, date: string, record: AttendanceRecord)
    requires OnePerKey(attendance) && IsFor(record, studentId, date)
    ensures OnePerKey(Saved(attendance, studentId, date, record))
  {
    SavedShape(attendance, studentId, date, record);
  }

  /** After a status update the student shows the new status on the date;
      every other (student, date) shows what it showed before; the record
      keeps its id and observation when it existed. */
  lemma {:induction false} StatusUpdate(attendance: seq<AttendanceRecord>, studentId: string, date: string, status: string,
                     freshId: string)
    ensures var r := WithStatus(attendance, studentId, date, status, freshId);
      && EffectiveStatus(r, studentId, date) == status
      && EffectiveObservation(r, studentId, date) == EffectiveObservation(attendance, studentId, date)
      && |r| == |attendance| + (if FindRecord(attendance, studentId, date) >= 0 then 0 else 1)
      && (OnePerKey(attendance) ==> OnePerKey(r))
      && (forall otherId, otherDate | (otherId, otherDate) != (studentId, date) ::
            EffectiveStatus(r, otherId, otherDate) == EffectiveStatus(attendance, otherId, otherDate)
            && EffectiveObservation(r, otherId, otherDate) == EffectiveObservation(attendance, otherId, otherDate))
  {
    var record := StatusRecord(attendance, studentId, date, status, freshId);
    SavedShape(attendance, studentId, date, record);
    if OnePerKey(attendance) {
      SavedOnePerKey(attendance, studentId, date, record);
    }
    forall otherId, otherDate | (otherId, otherDate) != (studentId, date)
      ensures EffectiveStatus(WithStatus(attendance, studentId, date, status, freshId), otherId, otherDate)
           == EffectiveStatus(attendance, otherId, otherDate)
      ensures EffectiveObservation(WithStatus(attendance, studentId, date, status, freshId), otherId, otherDate)
           == EffectiveObservation(attendance, otherId, otherDate)
    {
      SavedOtherKey(attendance, studentId, date, record, otherId, otherDate);
    }
  }

  /** After an observation update the student shows the new observation on
      the date and the same status as before: a new record is Present, which
      is what a student without a record already showed. */
  lemma {:induction false} ObservationUpdate(attendance: seq<AttendanceRecord>, studentId: string, date: string, observation: string,
                          freshId: string)
    ensures var r := WithObservation(attendance, studentId, date, observation, freshId);
      && EffectiveObservation(r, studentId, date) == observation
      && EffectiveStatus(r, studentId, date) == EffectiveStatus(attendance, studentId, date)
      && (OnePerKey(attendance) ==> OnePerKey(r))
      && (forall otherId, otherDate | (otherId, otherDate) != (studentId, date) ::
            EffectiveStatus(r, otherId, otherDate) == EffectiveStatus(attendance, otherId, otherDate)
            && EffectiveObservation(r, otherId, otherDate) == EffectiveObservation(attendance, otherId, otherDate))
  {
    var record := ObservationRecord(attendance, studentId, date, observation, freshId);
    SavedShape(attendance, studentId, date, record);
    if OnePerKey(attendance) {
      SavedOnePerKey(attendance, studentId, date, record);
    }
    forall otherId, otherDate | (otherId, otherDate) != (studentId, date)
      ensures EffectiveStatus(WithObservation(attendance, studentId, date, observation, freshId), otherId, otherDate)
           == EffectiveStatus(attendance, otherId, otherDate)
      ensures EffectiveObservation(WithObservation(attendance, studentId, date, observation, freshId), otherId, otherDate)
           == EffectiveObservation(attendance, otherId, otherDate)
    {
      SavedOtherKey(attendance, studentId, date, record, otherId, otherDate);
    }
  }

  /** After a removal the key has no record, so it shows Present again, and
      every other record stays. */
  lemma {:induction false} RemovedSpec(attendance: seq<AttendanceRecord>, studentId: string, date: string)
    ensures var r := Removed(attendance, studentId, date);
      && FindRecord(r, studentId, date) == -1
      && EffectiveStatus(r, studentId, date) == Present
      && (forall a :: a in r <==> a in attendance && !IsFor(a, studentId, date))
  {
    var r := Removed(attendance, studentId, date);
    forall j | 0 <= j < |r|
      ensures !IsFor(r[j], studentId, date)
    {
      assert r[j] in r;
    }
    FindRecordUnique(r, studentId, date, -1);
  }

  // ------------------------------------------------- the attendance screen

  /** The class, shift and status filters of the attendance screen; an empty
      filter accepts everything. */
  predicate Listed(student: Student, attendance: seq<AttendanceRecord>, attendanceDate: string,
                   selectedClass: string, selectedShift: string, statusFilter: string)
  {
    && (selectedClass == "" || student.grade == selectedClass)
    && (selectedShift == "" || student.shift == selectedShift)
    && (statusFilter == "" || EffectiveStatus(attendance, student.id, attendanceDate) == statusFilter)
  }

  /** `a.name.localeCompare(b.name) <= 0`. */
  function NameOrder(): (Student, Student) -> bool
  {
    (a: Student, b: Student) => LexLe(a.name, b.name)
  }

  lemma {:induction false} NameOrderTotal()
    ensures Total(NameOrder())
  {
    forall a: Student, b: Student
      ensures NameOrder()(a, b) || NameOrder()(b, a)
    {
      LexTotal(a.name, b.name);
    }
  }

  /** `filteredStudents` of the attendance screen. */
  function AttendanceList(students: seq<Student>, attendance: seq<AttendanceRecord>, attendanceDate: string,
                          selectedClass: string, selectedShift: string, statusFilter: string): seq<Student>
  {
    SortBy(Filter(students, (s: Student) => Listed(s, attendance, attendanceDate, selectedClass, selectedShift, statusFilter)),
           NameOrder())
  }

  /** The screen lists exactly the students every filter accepts, each as
      often as in the roster, ordered by name. */
  lemma {:induction false} AttendanceListSpec(students: seq<Student>, attendance: seq<AttendanceRecord>, attendanceDate: string,
                           selectedClass: string, selectedShift: string, statusFilter: string)
    ensures var r := AttendanceList(students, attendance, attendanceDate, selectedClass, selectedShift, statusFilter);
      && (forall s :: s in r <==> s in students && Listed(s, attendance, attendanceDate, selectedClass, selectedShift, statusFilter))
      && (forall s :: multiset(r)[s] ==
            if Listed(s, attendance, attendanceDate, selectedClass, selectedShift, statusFilter)
            then multiset(students)[s] else 0)
      && SortedBy(r, NameOrder())
      && |r| <= |students|
  {
    var p := (s: Student) => Listed(s, attendance, attendanceDate, selectedClass, selectedShift, statusFilter);
    var kept := Filter(students, p);
    NameOrderTotal();
    SortBySorted(kept, NameOrder());
    var r := SortBy(kept, NameOrder());
    forall s
      ensures s in r <==> s in kept
      ensures multiset(r)[s] == if p(s) then multiset(students)[s] else 0
    {
      assert s in r <==> s in multiset(r);
      assert s in kept <==> s in multiset(kept);
      FilterMultiset(students, p, s);
    }
  }

  /** A student without a record on the selected date shows Present with an
      empty observation, and the Present status filter lists them. */
  lemma {:induction false} DefaultPresent(student: Student, attendance: seq<AttendanceRecord>, attendanceDate: string,
                       selectedClass: string, selectedShift: string)
    requires forall a | a in attendance :: !IsFor(a, student.id, attendanceDate)
    ensures EffectiveStatus(attendance, student.id, attendanceDate) == Present
    ensures EffectiveObservation(attendance, student.id, attendanceDate) == ""
    ensures Listed(student, attendance, attendanceDate, selectedClass, selectedShift, Present)
        <==> Listed(student, attendance, attendanceDate, selectedClass, selectedShift, "")
  {
    forall j | 0 <= j < |attendance|
      ensures !IsFor(attendance[j], student.id, attendanceDate)
    {
      assert attendance[j] in attendance;
    }
  }

  /** `AttendanceCard.handleBlur`: the edited text is sent only when it
      differs from the observation shown. */
  function BlurUpdate(localObs: string, observation: string): (sent: Option<string>)
  {
    if localObs != observation then Some(localObs) else None
  }

  /** Whether or not the blur sends anything, afterwards the card's text is
      the observation the student shows. */
  lemma {:induction false} BlurSyncs(attendance: seq<AttendanceRecord>, studentId: string, date: string, localObs: string, freshId: string)
    ensures var shown := EffectiveObservation(attendance, studentId, date);
      var after := match BlurUpdate(localObs, shown)
        case None => attendance
        case Some(text) => WithObservation(attendance, studentId, date, text, freshId);
      EffectiveObservation(after, studentId, date) == localObs
  {
    ObservationUpdate(attendance, studentId, date, localObs, freshId);
  }

  // --------------------------------------------- the absent-today toggle

  /** `isAbsentToday` of the student list: some record of the student dated
      today is Absent. */
  predicate AbsentToday(attendance: seq<AttendanceRecord>, studentId: string, today: string)
  {
    exists i | 0 <= i < |attendance| :: IsFor(attendance[i], studentId, today) && attendance[i].status == Absent
  }

  /** With one record per key, the flag is the status the attendance screen
      shows for today. */
  lemma {:induction false} AbsentTodayIsEffective(attendance: seq<AttendanceRecord>, studentId: string, today: string)
    requires OnePerKey(attendance)
    ensures AbsentToday(attendance, studentId, today) <==> EffectiveStatus(attendance, studentId, today) == Absent
  {
    var k := FindRecord(attendance, studentId, today);
    if AbsentToday(attendance, studentId, today) {
      var i :| 0 <= i < |attendance| && IsFor(attendance[i], studentId, today) && attendance[i].status == Absent;
      assert k >= 0 && k <= i;
      assert IsFor(attendance[i], attendance[k].studentId, attendance[k].date);
    }
  }

  /** `handleToggleAbsence` as written: the removal and the update both act
      on the date the attendance screen had selected, `attendanceDate`, which
      `setAttendanceDate(today)` changes only for later renders. */
  function ToggleAsWritten(attendance: seq<AttendanceRecord>, attendanceDate: string, today: string,
                           studentId: string, freshId: string): (r: (seq<AttendanceRecord>, string))
  {
    if AbsentToday(attendance, studentId, today) then (Removed(attendance, studentId, attendanceDate), attendanceDate)
    else (WithStatus(attendance, studentId, attendanceDate, Absent, freshId), today)
  }

  /** With another date selected, marking a student absent from the list
      writes the absence on that date, and the student is still not absent
      today. */
  lemma {:induction false} StaleDateToggle()
    ensures var r := ToggleAsWritten([], "2024-03-01", "2024-03-02", "s1", "r1");
      && r.0 == [AttendanceRecord("r1", "s1", "2024-03-01", Absent, "")]
      && !AbsentToday(r.0, "s1", "2024-03-02")
  {
    var r := ToggleAsWritten([], "2024-03-01", "2024-03-02", "s1", "r1");
    assert FindRecord([], "s1", "2024-03-01") == -1;
    assert r.0 == [AttendanceRecord("r1", "s1", "2024-03-01", Absent, "")];
    assert !IsFor(r.0[0], "s1", "2024-03-02");
  }

  /** The toggle acting on today's record, as its button promises. */
  function ToggledToday(attendance: seq<AttendanceRecord>, today: string, studentId: string, freshId: string)
    : seq<AttendanceRecord>
  {
    if AbsentToday(attendance, studentId, today) then Removed(attendance, studentId, today)
    else WithStatus(attendance, studentId, today, Absent, freshId)
  }

  /** The corrected toggle flips the flag and keeps one record per key. */
  lemma {:induction false} ToggleFlips(attendance: seq<AttendanceRecord>, today: string, studentId: string, freshId: string)
    requires OnePerKey(attendance)
    ensures var r := ToggledToday(attendance, today, studentId, freshId);
      && AbsentToday(r, studentId, today) == !AbsentToday(attendance, studentId, today)
      && OnePerKey(r)
  {
    var r := ToggledToday(attendance, today, studentId, freshId);
    if AbsentToday(attendance, studentId, today) {
      RemovedSpec(attendance, studentId, today);
      forall i | 0 <= i < |r|
        ensures !IsFor(r[i], studentId, today)
      {
        assert r[i] in r;
      }
      RemovedOnePerKey(attendance, studentId, today);
    } else {
      StatusUpdate(attendance, studentId, today, Absent, freshId);
      var k := FindRecord(r, studentId, today);
      assert IsFor(r[k], studentId, today) && r[k].status == Absent;
    }
  }

  /** A removal keeps the list at one record per key. */
  lemma {:induction false} RemovedOnePerKey(attendance: seq<AttendanceRecord>, studentId: string, date: string)
    requires OnePerKey(attendance)
    ensures OnePerKey(Removed(attendance, studentId, date))
  {
    if attendance != [] {
      var init := attendance[..|attendance| - 1];
      var last := attendance[|attendance| - 1];
      assert OnePerKey(init);
      RemovedOnePerKey(init, studentId, date);
      var r0 := Removed(init, studentId, date);
      forall a | a in r0
        ensures !IsFor(last, a.studentId, a.date)
      {
        var i :| 0 <= i < |init| && init[i] == a;
      }
    }
  }
}
