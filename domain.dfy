/**
 * The records the school system stores, as the front end and the API
 * exchange them. Optional text fields that the code reads with `|| ''` are
 * plain strings here, the empty string standing for "absent".
 */
module Domain {
  import opened Folds

  // Attendance statuses.
  const Present: string := "Present"
  const Absent: string := "Absent"
  const Excused: string := "Excused"

  // Student shifts.
  const Morning: string := "Manhã"
  const Afternoon: string := "Tarde"

  datatype Student = Student(
    id: string,
    name: string,
    registration: string,
    sequenceNumber: string,
    birthDate: string,
    grade: string,
    shift: string,
    email: string,
    photoUrl: string,
    fatherName: string,
    fatherPhone: string,
    motherName: string,
    motherPhone: string,
    bookStatus: string,
    peStatus: string,
    turnstileRegistered: bool)

  /** One student's attendance on one date ("YYYY-MM-DD"). */
  datatype AttendanceRecord = AttendanceRecord(
    id: string,
    studentId: string,
    date: string,
    status: string,
    observation: string)

  datatype Role = Admin | Coordinator | Teacher

  datatype User = User(
    id: string,
    name: string,
    email: string,
    password: string,
    role: Role,
    allowedGrades: seq<string>,
    registration: string)

  /** Whether the record belongs to the given student and date. */
  predicate IsFor(a: AttendanceRecord, studentId: string, date: string)
  {
    a.studentId == studentId && a.date == date
  }

  /** `attendance.find(a => a.studentId === id && a.date === date)`: the first match. */
  function FindRecord(attendance: seq<AttendanceRecord>, studentId: string, date: string): (r: int)
    ensures -1 <= r < |attendance|
    ensures r >= 0 ==> IsFor(attendance[r], studentId, date)
    ensures forall j :: 0 <= j < (if r < 0 then |attendance| else r) ==> !IsFor(attendance[j], studentId, date)
  {
    if attendance == [] then -1
    else if IsFor(attendance[0], studentId, date) then 0
    else
      var r := FindRecord(attendance[1..], studentId, date);
      if r < 0 then -1 else r + 1
  }

  /** At most one record per (student, date): the key the attendance table is unique on. */
  predicate OnePerKey(attendance: seq<AttendanceRecord>)
  {
    forall i, j :: 0 <= i < j < |attendance| ==>
      !IsFor(attendance[j], attendance[i].studentId, attendance[i].date)
  }

  /** `students.find(s => s.id === id)`, as the position of the first student
      with the id, -1 when there is none. */
  function StudentIndex(students: seq<Student>, id: string): int
  {
    FirstIndex(students, (s: Student) => s.id, id)
  }
}
