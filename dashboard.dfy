/**
 * The dashboard's derived figures (DashboardView.tsx): students whose most
 * recent records are all absences, the number of presences today, and the
 * number of visible students per grade.
 *
 * Sorting by `new Date(date).getTime()` is the order of the ISO date strings
 * (StudentViews.NewestFirst); "today" is a parameter.
 */
module Dashboard {
  import opened Domain
  import opened Folds
  import opened Sorting
  import opened Text
  import opened StudentViews

  // ------------------------------------------------ consecutive absences

  /** `studentRecords`: the student's records, newest first. */
  function RecentRecords(attendance: seq<AttendanceRecord>, studentId: string): seq<AttendanceRecord>
  {
    SortBy(StudentRecords(attendance, studentId), NewestFirst())
  }

  /** The student has at least `threshold` records and the `threshold` newest
      are all absences. */
  predicate Flagged(attendance: seq<AttendanceRecord>, studentId: string, threshold: nat)
  {
    var records := RecentRecords(attendance, studentId);
    |records| >= threshold && forall i | 0 <= i < threshold :: records[i].status == Absent
  }

  /** `consecutiveAbsenceStudents`. */
  function ConsecutiveAbsences(visible: seq<Student>, attendance: seq<AttendanceRecord>, threshold: nat): seq<Student>
  {
    Filter(visible, (s: Student) => Flagged(attendance, s.id, threshold))
  }

  /** The first k records of a newest-first ordering of one student's
      records, when they are all absences: k absences of that student, among
      the records, and no record left out is newer than one of them. */
  lemma {:induction false} NewestPrefix(records: seq<AttendanceRecord>, sorted: seq<AttendanceRecord>, studentId: string, k: nat)
    requires multiset(sorted) == multiset(records) && k <= |sorted|
    requires PairwiseSortedBy(sorted, NewestFirst())
    requires forall a | a in records :: a.studentId == studentId
    requires forall i | 0 <= i < k :: sorted[i].status == Absent
    ensures multiset(sorted[..k]) <= multiset(records)
    ensures forall a | a in sorted[..k] :: a.status == Absent && a.studentId == studentId
    ensures forall x: AttendanceRecord, y: AttendanceRecord | x in multiset(records) - multiset(sorted[..k]) && y in sorted[..k] ::
              LexLe(x.date, y.date)
  {
    PrefixBeforeRest(sorted, k, NewestFirst());
    forall x: AttendanceRecord, y: AttendanceRecord | x in multiset(records) - multiset(sorted[..k]) && y in sorted[..k]
      ensures LexLe(x.date, y.date)
    {
      assert NewestFirst()(y, x);
    }
    forall a | a in sorted[..k]
      ensures a.status == Absent && a.studentId == studentId
    {
      assert a in multiset(records);
    }
  }

  /** A flagged student has `threshold` absences among their records that are
      no older than any record of theirs outside them; a student with fewer
      records than the threshold is never flagged. */
  lemma {:induction false} FlaggedSpec(attendance: seq<AttendanceRecord>, studentId: string, threshold: nat)
    ensures |StudentRecords(attendance, studentId)| < threshold ==> !Flagged(attendance, studentId, threshold)
    ensures Flagged(attendance, studentId, threshold) ==>
      var records := StudentRecords(attendance, studentId);
      var top := RecentRecords(attendance, studentId)[..threshold];
      && |top| == threshold
      && multiset(top) <= multiset(records)
      && (forall a | a in top :: a.status == Absent && a.studentId == studentId)
      && (forall x: AttendanceRecord, y: AttendanceRecord | x in multiset(records) - multiset(top) && y in top ::
            LexLe(x.date, y.date))
  {
    var records := StudentRecords(attendance, studentId);
    var sorted := RecentRecords(attendance, studentId);
    NewestFirstIsOrder();
    SortBySorted(records, NewestFirst());
    assert |sorted| == |records| by {
      assert |multiset(sorted)| == |multiset(records)|;
    }
    if Flagged(attendance, studentId, threshold) {
      SortedIsPairwise(sorted, NewestFirst());
      NewestPrefix(records, sorted, studentId, threshold);
    }
  }

  /** A student flagged for a threshold is flagged for every smaller one,
      so the list only shrinks as the threshold grows. */
  lemma {:induction false} ThresholdMonotone(visible: seq<Student>, attendance: seq<AttendanceRecord>, smaller: nat, threshold: nat)
    requires smaller <= threshold
    ensures forall s :: s in ConsecutiveAbsences(visible, attendance, threshold) ==>
                        s in ConsecutiveAbsences(visible, attendance, smaller)
    ensures forall s | s in ConsecutiveAbsences(visible, attendance, threshold) :: s in visible
  {
  }

  // ------------------------------------------------------ present today

  predicate PresentOn(a: AttendanceRecord, today: string)
  {
    a.date == today && a.status == Present
  }

  /** `presentToday`. */
  function PresentToday(attendance: seq<AttendanceRecord>, today: string): nat
  {
    CountWhere(attendance, (a: AttendanceRecord) => PresentOn(a, today))
  }

  function PresentId(today: string): AttendanceRecord -> set<string>
  {
    (a: AttendanceRecord) => if PresentOn(a, today) then {a.studentId} else {}
  }

  /** The students with a Present record today. */
  function PresentIds(attendance: seq<AttendanceRecord>, today: string): set<string>
  {
    UnionOf(attendance, PresentId(today))
  }

  /** With one record per (student, date), the count is the number of
      students present today. */
  lemma {:induction false} PresentTodayCountsStudents(attendance: seq<AttendanceRecord>, today: string)
    requires OnePerKey(attendance)
    ensures PresentToday(attendance, today) == |PresentIds(attendance, today)|
  {
    if attendance != [] {
      var n := |attendance| - 1;
      var init := attendance[..n];
      var last := attendance[n];
      assert OnePerKey(init);
      PresentTodayCountsStudents(init, today);
      if PresentOn(last, today) {
        forall i | 0 <= i < n
          ensures last.studentId !in PresentId(today)(init[i])
        {
          assert !IsFor(attendance[n], attendance[i].studentId, attendance[i].date);
        }
        UnionOfWitness(init, PresentId(today), last.studentId);
      }
    }
  }

  // ------------------------------------------------- grade distribution

  /** The accumulator of the `reduce`, as `Object.entries` lists it: one
      (grade, count) entry per grade, in order of first appearance. */
  type Entries = seq<(string, nat)>

  /** `acc[grade] = (acc[grade] || 0) + 1`. */
  function Bump(entries: Entries, grade: string): (r: Entries)
  {
    if entries == [] then [(grade, 1)]
    else if entries[0].0 == grade then [(grade, entries[0].1 + 1)] + entries[1..]
    else [entries[0]] + Bump(entries[1..], grade)
  }

  /** The grade distribution card: the fold over the visible students. */
  function Distribution(students: seq<Student>): Entries
  {
    if students == [] then []
    else Bump(Distribution(students[..|students| - 1]), students[|students| - 1].grade)
  }

  /** The count listed for a grade, 0 when it is not listed. */
  function CountOf(entries: Entries, grade: string): nat
  {
    if entries == [] then 0
    else if entries[0].0 == grade then entries[0].1
    else CountOf(entries[1..], grade)
  }

  function Sum(entries: Entries): nat
  {
    if entries == [] then 0 else entries[0].1 + Sum(entries[1..])
  }

  predicate Lists(entries: Entries, grade: string)
  {
    entries != [] && (entries[0].0 == grade || Lists(entries[1..], grade))
  }

  /** Each grade is listed once. */
  predicate ListedOnce(entries: Entries)
  {
    entries == [] || (!Lists(entries[1..], entries[0].0) && ListedOnce(entries[1..]))
  }

  predicate Positive(entries: Entries)
  {
    forall i | 0 <= i < |entries| :: entries[i].1 > 0
  }

  /** One more student of a grade adds one to that grade's count and to the
      sum, lists the grade if it was missing, and keeps every count
      positive and every grade listed once. */
  lemma {:induction false} BumpSpec(entries: Entries, grade: string)
    ensures var r := Bump(entries, grade);
      && Sum(r) == Sum(entries) + 1
      && (forall g :: CountOf(r, g) == CountOf(entries, g) + (if g == grade then 1 else 0))
      && (forall g :: Lists(r, g) <==> Lists(entries, g) || g == grade)
      && (Positive(entries) ==> Positive(r))
      && (ListedOnce(entries) ==> ListedOnce(r))
  {
    if entries != [] && entries[0].0 != grade {
      BumpSpec(entries[1..], grade);
      var r := Bump(entries, grade);
      assert r[1..] == Bump(entries[1..], grade);
    } else if entries != [] {
      var r := Bump(entries, grade);
      assert r[1..] == entries[1..];
    }
  }

  predicate HasGrade(students: seq<Student>, grade: string)
  {
    exists i | 0 <= i < |students| :: students[i].grade == grade
  }

  /** The card lists each grade of the visible students once, with the
      number of students in it; every count is positive and the counts add
      up to the number of visible students. */
  lemma {:induction false} DistributionSpec(students: seq<Student>)
    ensures var d := Distribution(students);
      && Sum(d) == |students|
      && Positive(d)
      && ListedOnce(d)
      && (forall g :: CountOf(d, g) == CountWhere(students, (s: Student) => s.grade == g))
      && (forall g :: Lists(d, g) <==> HasGrade(students, g))
  {
    if students != [] {
      var n := |students| - 1;
      var init := students[..n];
      DistributionSpec(init);
      BumpSpec(Distribution(init), students[n].grade);
      forall g
        ensures HasGrade(students, g) <==> HasGrade(init, g) || students[n].grade == g
      {
        if HasGrade(students, g) {
          var i :| 0 <= i < |students| && students[i].grade == g;
          if i < n {
            assert init[i].grade == g;
          }
        }
        if HasGrade(init, g) {
          var i :| 0 <= i < n && init[i].grade == g;
          assert students[i].grade == g;
        }
      }
    }
  }
}
