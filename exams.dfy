/**
 * The make-up exam screen (ExamView.tsx): the list filtered by the grade and
 * shift of the exam's student, and the three buttons that set an exam's
 * status, with the handler that applies it (`handleUpdateExamStatus`,
 * App.tsx).
 */
module Exams {
  import opened Domain
  import opened Folds

  const Pending: string := "Pending"
  const Completed: string := "Completed"
  const Cancelled: string := "Cancelled"

  datatype MakeUpExam = MakeUpExam(
    id: string,
    studentId: string,
    subject: string,
    originalDate: string,
    scheduledDate: string,
    reason: string,
    status: string,
    period: string)

  /** An empty filter accepts everything; otherwise the value must equal it. */
  predicate Accepts(filter: string, value: string)
  {
    filter == "" || value == filter
  }

  /** The test of `filteredExams` for one exam. */
  predicate ExamListed(students: seq<Student>, gradeFilter: string, shiftFilter: string, exam: MakeUpExam)
  {
    var k := StudentIndex(students, exam.studentId);
    k >= 0 && Accepts(gradeFilter, students[k].grade) && Accepts(shiftFilter, students[k].shift)
  }

  /** `filteredExams`. */
  function FilteredExams(exams: seq<MakeUpExam>, students: seq<Student>, gradeFilter: string, shiftFilter: string): seq<MakeUpExam>
  {
    Filter(exams, (e: MakeUpExam) => ExamListed(students, gradeFilter, shiftFilter, e))
  }

  /** An exam is listed iff some student has its student id and the first
      such student passes both filters; an exam of an unknown student never
      is; the list keeps the exams' order; with both filters empty every exam
      of a known student is listed. */
  lemma {:induction false} FilteredExamsSpec(exams: seq<MakeUpExam>, students: seq<Student>, gradeFilter: string, shiftFilter: string)
    ensures var r := FilteredExams(exams, students, gradeFilter, shiftFilter);
      && SubsequenceOf(r, exams)
      && (forall e :: e in r <==> (e in exams &&
            exists k | 0 <= k < |students| :: students[k].id == e.studentId &&
              (forall j | 0 <= j < k :: students[j].id != e.studentId) &&
              Accepts(gradeFilter, students[k].grade) && Accepts(shiftFilter, students[k].shift)))
      && (forall e | e in exams && (forall k | 0 <= k < |students| :: students[k].id != e.studentId) :: e !in r)
      && (gradeFilter == "" && shiftFilter == "" ==>
            forall e :: e in r <==> (e in exams && exists k | 0 <= k < |students| :: students[k].id == e.studentId))
  {
    var p := (e: MakeUpExam) => ExamListed(students, gradeFilter, shiftFilter, e);
    FilterSubsequence(exams, p);
    forall e
      ensures ExamListed(students, gradeFilter, shiftFilter, e) <==>
        exists k | 0 <= k < |students| :: students[k].id == e.studentId &&
          (forall j | 0 <= j < k :: students[j].id != e.studentId) &&
          Accepts(gradeFilter, students[k].grade) && Accepts(shiftFilter, students[k].shift)
      ensures (exists k | 0 <= k < |students| :: students[k].id == e.studentId) <==>
        StudentIndex(students, e.studentId) >= 0
    {
      ExamListedSpec(students, gradeFilter, shiftFilter, e);
    }
  }

  /** The test of one exam, stated through the first student with its id. */
  lemma {:induction false} ExamListedSpec(students: seq<Student>, gradeFilter: string, shiftFilter: string, e: MakeUpExam)
    ensures ExamListed(students, gradeFilter, shiftFilter, e) <==>
      exists k | 0 <= k < |students| :: students[k].id == e.studentId &&
        (forall j | 0 <= j < k :: students[j].id != e.studentId) &&
        Accepts(gradeFilter, students[k].grade) && Accepts(shiftFilter, students[k].shift)
    ensures (exists k | 0 <= k < |students| :: students[k].id == e.studentId) <==>
      StudentIndex(students, e.studentId) >= 0
  {
    var k := StudentIndex(students, e.studentId);
    if k >= 0 {
      assert students[k].id == e.studentId;
      assert forall j | 0 <= j < k :: students[j].id != e.studentId;
    } else {
      assert forall j | 0 <= j < |students| :: students[j].id != e.studentId;
    }
    if exists k' | 0 <= k' < |students| :: students[k'].id == e.studentId &&
        (forall j | 0 <= j < k' :: students[j].id != e.studentId) {
      var k' :| 0 <= k' < |students| && students[k'].id == e.studentId &&
        (forall j | 0 <= j < k' :: students[j].id != e.studentId);
      assert k == k';
    }
  }

  // --------------------------------------------------------- status buttons

  /** The three buttons of an exam card. */
  datatype StatusButton = PendingButton | CompletedButton | CancelledButton

  /** The status each button requests. */
  function ButtonStatus(b: StatusButton): (status: string)
  {
    match b
    case PendingButton => Pending
    case CompletedButton => Completed
    case CancelledButton => Cancelled
  }

  /** The call a button makes: `onUpdateExamStatus(exam.id, status)`. */
  function ButtonRequest(exam: MakeUpExam, b: StatusButton): (request: (string, string))
  {
    (exam.id, ButtonStatus(b))
  }

  /** Each button asks for its own status for that exam, and the three ask
      for the three statuses. */
  lemma {:induction false} ButtonRequestSpec(exam: MakeUpExam, b: StatusButton)
    ensures ButtonRequest(exam, b).0 == exam.id
    ensures ButtonRequest(exam, b).1 in {Pending, Completed, Cancelled}
    ensures forall c: StatusButton :: ButtonStatus(c) == ButtonStatus(b) ==> c == b
  {
  }

  /** The position of the first exam with the id, -1 when there is none. */
  function ExamIndex(exams: seq<MakeUpExam>, id: string): int
  {
    FirstIndex(exams, (e: MakeUpExam) => e.id, id)
  }

  /** `handleUpdateExamStatus`: when some exam has the id, every exam with
      that id is replaced by the first one with the new status. */
  function UpdateExamStatus(exams: seq<MakeUpExam>, id: string, status: string): (r: seq<MakeUpExam>)
  {
    var k := ExamIndex(exams, id);
    if k < 0 then exams
    else
      var updated := exams[k].(status := status);
      seq(|exams|, i requires 0 <= i < |exams| => if exams[i].id == id then updated else exams[i])
  }

  /** The list keeps its length and order; exams with other ids are kept as
      they are; the exams with the id take the new status and otherwise
      become the first of them; an unknown id changes nothing. */
  lemma {:induction false} UpdateExamStatusSpec(exams: seq<MakeUpExam>, id: string, status: string)
    ensures var r := UpdateExamStatus(exams, id, status);
      && |r| == |exams|
      && (forall i | 0 <= i < |exams| && exams[i].id != id :: r[i] == exams[i])
      && (forall i | 0 <= i < |exams| && exams[i].id == id ::
            r[i].status == status && r[i].id == id &&
            exists k | 0 <= k <= i :: exams[k].id == id && r[i] == exams[k].(status := status))
      && ((forall i | 0 <= i < |exams| :: exams[i].id != id) ==> r == exams)
  {
    var k := ExamIndex(exams, id);
    if k >= 0 {
      var r := UpdateExamStatus(exams, id, status);
      forall i | 0 <= i < |exams| && exams[i].id == id
        ensures exists k' | 0 <= k' <= i :: exams[k'].id == id && r[i] == exams[k'].(status := status)
      {
        assert k <= i;
      }
    }
  }
}
