/**
 * The student roster rules of App.tsx: which students a user may see, the
 * search filters and the list order, the book and physical-education status
 * cycles, and the registration check before a student is saved.
 *
 * `parseInt` without a radix is Text.ParseIntAuto (hexadecimal after "0x",
 * None for NaN); `localeCompare` on names is the code-point order LexLe.
 * Random ids are parameters.
 */
module Roster {
  import opened Wrappers
  import opened Text
  import opened Domain
  import opened Folds
  import opened Sorting
  import Constants

  // ------------------------------------------------------------ visibility

  /** `getVisibleStudents`: nobody without a user, everybody for an Admin,
      otherwise the students of the user's allowed grades. */
  function VisibleStudents(currentUser: Option<User>, students: seq<Student>): seq<Student>
  {
    match currentUser
    case None => []
    case Some(user) =>
      if user.role == Admin then students
      else Filter(students, (s: Student) => s.grade in user.allowedGrades)
  }

  /** The visible students are the roster itself, or the part of it in the
      user's grades, in roster order. */
  lemma {:induction false} VisibleSpec(currentUser: Option<User>, students: seq<Student>)
    ensures var r := VisibleStudents(currentUser, students);
      && SubsequenceOf(r, students)
      && (currentUser.None? ==> r == [])
      && (currentUser.Some? && currentUser.value.role == Admin ==> r == students)
      && (currentUser.Some? && currentUser.value.role != Admin ==>
            forall s :: s in r <==> s in students && s.grade in currentUser.value.allowedGrades)
  {
    match currentUser
    case None =>
      assert Embeds([], [], students);
    case Some(user) =>
      if user.role == Admin {
        assert Embeds(seq(|students|, i => i), students, students);
      } else {
        FilterSubsequence(students, (s: Student) => s.grade in user.allowedGrades);
      }
  }

  /** `visibleGradesList`: the grade list, cut down to the allowed grades for
      a user who is not an Admin. */
  function VisibleGrades(currentUser: Option<User>): seq<string>
  {
    if currentUser.None? || currentUser.value.role == Admin then Constants.GradesList
    else Filter(Constants.GradesList, (g: string) => g in currentUser.value.allowedGrades)
  }

  /** A non-Admin user is offered exactly the known grades they are allowed. */
  lemma {:induction false} VisibleGradesSpec(user: User)
    requires user.role != Admin
    ensures forall g :: g in VisibleGrades(Some(user)) <==> g in Constants.GradesList && g in user.allowedGrades
  {
  }

  // ------------------------------------------------- search and ordering

  /** The roster screen's filters; the empty string is "no filter". */
  datatype RosterFilters = RosterFilters(
    searchTerm: string,
    grade: string,
    shift: string,
    bookStatus: string,
    peStatus: string,
    turnstile: string)

  predicate Matches(s: Student, f: RosterFilters)
  {
    && (Contains(ToLower(s.name), ToLower(f.searchTerm)) || Contains(s.registration, f.searchTerm))
    && (f.grade == "" || s.grade == f.grade)
    && (f.shift == "" || s.shift == f.shift)
    && (f.bookStatus == "" || s.bookStatus == f.bookStatus)
    && (f.peStatus == "" || s.peStatus == f.peStatus)
    && (f.turnstile == "" || s.turnstileRegistered == (f.turnstile == "true"))
  }

  /** The student's number as the comparator reads it: `parseInt` with no
      radix, so "0x10" is 16 and "0xZ" is no number. */
  function SequenceOf(s: Student): Option<int>
  {
    ParseIntAuto(s.sequenceNumber)
  }

  /** The comparator of `filteredStudents` read as "comes no later than":
      numbered students first by number, then the rest by name. */
  predicate RosterLe(a: Student, b: Student)
  {
    match (SequenceOf(a), SequenceOf(b))
    case (Some(x), Some(y)) => x <= y
    case (Some(_), None) => true
    case (None, Some(_)) => false
    case (None, None) => LexLe(a.name, b.name)
  }

  function RosterOrder(): (Student, Student) -> bool
  {
    (a: Student, b: Student) => RosterLe(a, b)
  }

  lemma {:induction false} RosterOrderTotal()
    ensures Total(RosterOrder())
  {
    forall a: Student, b: Student
      ensures RosterOrder()(a, b) || RosterOrder()(b, a)
    {
      LexTotal(a.name, b.name);
    }
  }

  lemma {:induction false} RosterOrderTransitive()
    ensures Transitive(RosterOrder())
  {
    forall a: Student, b: Student, c: Student | RosterOrder()(a, b) && RosterOrder()(b, c)
      ensures RosterOrder()(a, c)
    {
      if SequenceOf(a).None? && SequenceOf(b).None? && SequenceOf(c).None? {
        LexTransitive(a.name, b.name, c.name);
      }
    }
  }

  /** A number written "0x10" is sixteen to the comparator, so it sorts after
      "9"; "0xZ" is no number and sorts after both. */
  lemma {:induction false} HexNumberOrder(a: Student, b: Student, c: Student)
    requires a.sequenceNumber == "9" && b.sequenceNumber == "0x10" && c.sequenceNumber == "0xZ"
    ensures RosterLe(a, b) && !RosterLe(b, a)
    ensures RosterLe(b, c) && !RosterLe(c, b)
  {
    ParseAutoHexExample();
    ParseAutoNaNExample();
    assert DigitsValue("9") == 9 by { assert "9"[..0] == ""; }
    ParseAutoDigitsThen("9", "");
    assert "9" + "" == "9";
  }

  /** `filteredStudents` of the roster screen. */
  function RosterList(visible: seq<Student>, f: RosterFilters): seq<Student>
  {
    SortBy(Filter(visible, (s: Student) => Matches(s, f)), RosterOrder())
  }

  /** In a list ordered by RosterLe, numbered students come first in
      increasing number and the others follow by name. */
  lemma {:induction false} RosterOrdered(r: seq<Student>)
    requires PairwiseSortedBy(r, RosterOrder())
    ensures forall i, j | 0 <= i < j < |r| && SequenceOf(r[j]).Some? :: SequenceOf(r[i]).Some?
    ensures forall i, j | 0 <= i < j < |r| && SequenceOf(r[i]).Some? && SequenceOf(r[j]).Some? ::
              SequenceOf(r[i]).value <= SequenceOf(r[j]).value
    ensures forall i, j | 0 <= i < j < |r| && SequenceOf(r[i]).None? && SequenceOf(r[j]).None? ::
              LexLe(r[i].name, r[j].name)
  {
    forall i, j | 0 <= i < j < |r|
      ensures RosterLe(r[i], r[j])
    {
      assert RosterOrder()(r[i], r[j]);
    }
  }

  /** The roster screen lists exactly the visible students every filter
      accepts; students with a sequence number come before those without,
      in increasing number, and the others follow by name. */
  lemma {:induction false} RosterListSpec(visible: seq<Student>, f: RosterFilters)
    ensures var r := RosterList(visible, f);
      && |r| <= |visible|
      && (forall s :: s in r <==> s in visible && Matches(s, f))
      && (forall s :: multiset(r)[s] == if Matches(s, f) then multiset(visible)[s] else 0)
      && (forall i, j | 0 <= i < j < |r| && SequenceOf(r[j]).Some? :: SequenceOf(r[i]).Some?)
      && (forall i, j | 0 <= i < j < |r| && SequenceOf(r[i]).Some? && SequenceOf(r[j]).Some? ::
            SequenceOf(r[i]).value <= SequenceOf(r[j]).value)
      && (forall i, j | 0 <= i < j < |r| && SequenceOf(r[i]).None? && SequenceOf(r[j]).None? ::
            LexLe(r[i].name, r[j].name))
  {
    var kept := Filter(visible, (s: Student) => Matches(s, f));
    var r := SortBy(kept, RosterOrder());
    RosterOrderTotal();
    RosterOrderTransitive();
    SortBySorted(kept, RosterOrder());
    SortedIsPairwise(r, RosterOrder());
    RosterOrdered(r);
    SameElements(r, kept);
    forall s
      ensures multiset(r)[s] == if Matches(s, f) then multiset(visible)[s] else 0
    {
      FilterMultiset(visible, (s: Student) => Matches(s, f), s);
    }
  }

  /** Sequences with the same multiset have the same elements. */
  lemma {:induction false} SameElements<T>(a: seq<T>, b: seq<T>)
    requires multiset(a) == multiset(b)
    ensures forall x :: x in a <==> x in b
  {
    forall x
      ensures x in a <==> x in b
    {
      assert x in a <==> x in multiset(a);
      assert x in b <==> x in multiset(b);
    }
  }

  // ------------------------------------------------------- status cycles

  const BookCycle: seq<string> := ["Nao Comprou", "Comprou", "Copia", "Livro Antigo"]
  const PeCycle: seq<string> := ["Pendente", "Em Análise", "Aprovado", "Reprovado"]

  /** `nextStatus[student.bookStatus] || 'Nao Comprou'`. */
  function NextBook(status: string): string
  {
    if status == "Nao Comprou" then "Comprou"
    else if status == "Comprou" then "Copia"
    else if status == "Copia" then "Livro Antigo"
    else "Nao Comprou"
  }

  /** `nextStatus[student.peStatus] || 'Pendente'`. */
  function NextPe(status: string): string
  {
    if status == "Pendente" then "Em Análise"
    else if status == "Em Análise" then "Aprovado"
    else if status == "Aprovado" then "Reprovado"
    else "Pendente"
  }

  /** A click moves a book status one step around the four-step cycle. */
  lemma {:induction false} BookStep(i: nat)
    requires i < 4
    ensures NextBook(BookCycle[i]) == BookCycle[(i + 1) % 4]
  {
  }

  /** Any status outside the cycle restarts it, so every click lands in the
      cycle, and four clicks bring a status of the cycle back. */
  lemma {:induction false} BookCycleSpec(status: string)
    ensures status !in BookCycle ==> NextBook(status) == BookCycle[0]
    ensures NextBook(status) in BookCycle
    ensures status in BookCycle ==> NextBook(NextBook(NextBook(NextBook(status)))) == status
  {
  }

  /** The same for the physical-education certificate status. */
  lemma {:induction false} PeStep(i: nat)
    requires i < 4
    ensures NextPe(PeCycle[i]) == PeCycle[(i + 1) % 4]
  {
  }

  lemma {:induction false} PeCycleSpec(status: string)
    ensures status !in PeCycle ==> NextPe(status) == PeCycle[0]
    ensures NextPe(status) in PeCycle
    ensures status in PeCycle ==> NextPe(NextPe(NextPe(NextPe(status)))) == status
  {
  }

  /** `prev.students.map(s => s.id === updated.id ? updated : s)`. */
  function ReplaceById(students: seq<Student>, updated: Student): (r: seq<Student>)
  {
    seq(|students|, i requires 0 <= i < |students| => if students[i].id == updated.id then updated else students[i])
  }

  function ToggledBook(students: seq<Student>, clicked: Student): seq<Student>
  {
    ReplaceById(students, clicked.(bookStatus := NextBook(clicked.bookStatus)))
  }

  function ToggledPe(students: seq<Student>, clicked: Student): seq<Student>
  {
    ReplaceById(students, clicked.(peStatus := NextPe(clicked.peStatus)))
  }

  function ToggledTurnstile(students: seq<Student>, clicked: Student): seq<Student>
  {
    ReplaceById(students, clicked.(turnstileRegistered := !clicked.turnstileRegistered))
  }

  /** A toggle changes only the clicked student's entries, whose status moves
      one step (or whose turnstile flag flips), and leaves the roster's length. */
  lemma {:induction false} ToggleSpec(students: seq<Student>, clicked: Student)
    ensures var r := ToggledBook(students, clicked);
      && |r| == |students|
      && forall i | 0 <= i < |r| ::
           if students[i].id == clicked.id then r[i] == clicked.(bookStatus := NextBook(clicked.bookStatus))
           else r[i] == students[i]
    ensures var r := ToggledPe(students, clicked);
      && |r| == |students|
      && forall i | 0 <= i < |r| ::
           if students[i].id == clicked.id then r[i] == clicked.(peStatus := NextPe(clicked.peStatus))
           else r[i] == students[i]
    ensures var r := ToggledTurnstile(students, clicked);
      && |r| == |students|
      && forall i | 0 <= i < |r| ::
           if students[i].id == clicked.id then r[i].turnstileRegistered != clicked.turnstileRegistered
             && r[i] == clicked.(turnstileRegistered := r[i].turnstileRegistered)
           else r[i] == students[i]
  {
  }

  /** Clicking the turnstile flag twice, the second time on the updated
      student, gives the roster back. */
  lemma {:induction false} TurnstileToggleTwice(students: seq<Student>, clicked: Student)
    requires forall i | 0 <= i < |students| && students[i].id == clicked.id :: students[i] == clicked
    ensures var updated := clicked.(turnstileRegistered := !clicked.turnstileRegistered);
      ToggledTurnstile(ToggledTurnstile(students, clicked), updated) == students
  {
    var updated := clicked.(turnstileRegistered := !clicked.turnstileRegistered);
    var r := ToggledTurnstile(ToggledTurnstile(students, clicked), updated);
    assert |r| == |students|;
    forall i | 0 <= i < |r|
      ensures r[i] == students[i]
    {
    }
  }

  // ------------------------------------------------------------- saving

  datatype SaveCheck = MissingField | DuplicateRegistration | Accepted

  /** Another student, not the one being edited, already has the trimmed
      registration, and it is not blank. */
  predicate Duplicated(students: seq<Student>, temp: Student)
  {
    exists i | 0 <= i < |students| ::
      students[i].id != temp.id && Trim(students[i].registration) == Trim(temp.registration)
      && Trim(students[i].registration) != ""
  }

  /** The guards of `handleSaveStudent`. */
  function CheckSave(students: seq<Student>, temp: Student): SaveCheck
  {
    if temp.name == "" || temp.grade == "" then MissingField
    else if Duplicated(students, temp) then DuplicateRegistration
    else Accepted
  }

  /** The student saved: a new one takes the fresh id and, without a photo,
      the avatar address derived from it. */
  function ToSave(temp: Student, freshId: string): (r: Student)
    ensures temp.id != "" ==> r == temp
    ensures temp.id == "" ==> r.id == freshId && r.(id := temp.id, photoUrl := temp.photoUrl) == temp
    ensures temp.photoUrl != "" ==> r.photoUrl == temp.photoUrl
  {
    if temp.id != "" then temp
    else
      var photo := if temp.photoUrl == "" then "https://api.dicebear.com/7.x/avataaars/svg?seed=" + freshId else temp.photoUrl;
      temp.(id := freshId, photoUrl := photo)
  }

  /** The roster after the save: the students with the saved id are replaced,
      or the saved student is appended. */
  function AfterSave(students: seq<Student>, temp: Student, freshId: string): seq<Student>
  {
    Upserted(students, ToSave(temp, freshId))
  }

  /** The students with the saved student's id are replaced, or it is appended. */
  function Upserted(students: seq<Student>, saved: Student): seq<Student>
  {
    if exists i | 0 <= i < |students| :: students[i].id == saved.id then ReplaceById(students, saved)
    else students + [saved]
  }

  /** The trimmed registration: the key the duplicate check compares. */
  function RegistrationKey(): Student -> string
  {
    (s: Student) => Trim(s.registration)
  }

  /** Two students sharing a non-blank key are the same student. */
  predicate UniqueBy(students: seq<Student>, key: Student -> string)
  {
    forall i, j | 0 <= i < |students| && 0 <= j < |students| ::
      key(students[i]) == key(students[j]) && key(students[i]) != "" ==> students[i].id == students[j].id
  }

  predicate RegistrationsUnique(students: seq<Student>)
  {
    UniqueBy(students, RegistrationKey())
  }

  /** Replacing by id keeps keys unique when no student with another id
      shares the new key. */
  lemma {:induction false} ReplaceKeepsUnique(students: seq<Student>, saved: Student, key: Student -> string)
    requires UniqueBy(students, key)
    requires forall i | 0 <= i < |students| && students[i].id != saved.id ::
               key(students[i]) != key(saved) || key(students[i]) == ""
    ensures UniqueBy(ReplaceById(students, saved), key)
  {
  }

  lemma {:induction false} AppendKeepsUnique(students: seq<Student>, saved: Student, key: Student -> string)
    requires UniqueBy(students, key)
    requires forall i | 0 <= i < |students| :: key(students[i]) != key(saved) || key(students[i]) == ""
    ensures UniqueBy(students + [saved], key)
  {
  }

  /** The check passes only when no student with another id than the saved
      one shares its non-blank registration. */
  lemma {:induction false} AcceptedHasNoClash(students: seq<Student>, temp: Student, freshId: string)
    requires forall s | s in students :: s.id != ""
    requires CheckSave(students, temp) == Accepted
    ensures forall i | 0 <= i < |students| && students[i].id != ToSave(temp, freshId).id ::
              RegistrationKey()(students[i]) != RegistrationKey()(ToSave(temp, freshId)) || RegistrationKey()(students[i]) == ""
  {
    forall i | 0 <= i < |students| && students[i].id != ToSave(temp, freshId).id
      ensures RegistrationKey()(students[i]) != RegistrationKey()(ToSave(temp, freshId)) || RegistrationKey()(students[i]) == ""
    {
      assert students[i] in students;
    }
  }

  /** Upserting a student whose non-blank key no student with another id
      shares keeps keys unique, and the student is then in the roster. */
  lemma {:induction false} UpsertKeepsUnique(students: seq<Student>, saved: Student, key: Student -> string)
    requires UniqueBy(students, key)
    requires forall i | 0 <= i < |students| && students[i].id != saved.id ::
               key(students[i]) != key(saved) || key(students[i]) == ""
    ensures UniqueBy(Upserted(students, saved), key) && saved in Upserted(students, saved)
  {
    if exists i | 0 <= i < |students| :: students[i].id == saved.id {
      var k :| 0 <= k < |students| && students[k].id == saved.id;
      ReplaceKeepsUnique(students, saved, key);
      assert ReplaceById(students, saved)[k] == saved;
    } else {
      AppendKeepsUnique(students, saved, key);
      assert (students + [saved])[|students|] == saved;
    }
  }

  /** Accepted saves keep registrations unique, given that stored students
      have ids and the fresh id is new; the saved student is then in the roster. */
  lemma {:induction false} SaveKeepsUnique(students: seq<Student>, temp: Student, freshId: string)
    requires RegistrationsUnique(students)
    requires forall s | s in students :: s.id != "" && s.id != freshId
    requires freshId != ""
    requires CheckSave(students, temp) == Accepted
    ensures var r := AfterSave(students, temp, freshId);
      && RegistrationsUnique(r)
      && ToSave(temp, freshId) in r
      && temp.name != "" && temp.grade != ""
  {
    AcceptedHasNoClash(students, temp, freshId);
    UpsertKeepsUnique(students, ToSave(temp, freshId), RegistrationKey());
  }
}
