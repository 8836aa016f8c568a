/**
 * The coordination view (CoordinationView.tsx): the grade and subject
 * catalogues, the teacher form with its classes and generated credentials,
 * the grade, shift and subject options offered for a teacher, and the
 * colour of a delivery status.
 *
 * A teacher's `classes`, which the view reads from the user record, is a
 * field of the user here. The confirmation dialogs are taken as accepted,
 * and the random ids are parameters. Each catalogue handler is the list it
 * sends to the server, none when it sends nothing.
 */
module Coordination {
  import opened Wrappers
  import opened Text
  import opened Domain
  import opened Folds
  import opened Constants

  /** A class a teacher gives: the empty shift stands for a missing one. */
  datatype TeacherClass = TeacherClass(id: string, grade: string, subject: string, shift: string)

  /** A user as the coordination view reads and writes it. */
  datatype StaffUser = StaffUser(
    id: string,
    name: string,
    email: string,
    password: string,
    role: Role,
    registration: string,
    photoUrl: string,
    allowedGrades: seq<string>,
    classes: seq<TeacherClass>)

  // ------------------------------------------------------------ catalogues

  /** The grades in use: the configured ones, or the catalogue when none is. */
  function ActiveGrades(grades: seq<string>): seq<string>
  {
    if |grades| > 0 then grades else GradesList
  }

  /** `handleAddGrade` and `handleAddSubject`: an empty name or one already
      listed sends nothing; otherwise the list with the name at the end. */
  function AddedEntry(list: seq<string>, entry: string): Option<seq<string>>
  {
    if entry == "" || entry in list then None else Some(list + [entry])
  }

  /** A name is added exactly when it is non-empty and new, at the end and
      after every earlier entry; a list without repeats keeps none. */
  lemma {:induction false} AddedEntrySpec(list: seq<string>, entry: string)
    ensures AddedEntry(list, entry).Some? <==> entry != "" && entry !in list
    ensures AddedEntry(list, entry).Some? ==>
      var r := AddedEntry(list, entry).value;
      && |r| == |list| + 1 && r[..|list|] == list && r[|list|] == entry
      && (Distinct(list) ==> Distinct(r))
  {
    if entry != "" && entry !in list {
      var r := list + [entry];
      assert r[..|list|] == list;
      if Distinct(list) {
        DistinctSnoc(list, entry);
      }
    }
  }

  function Other(entry: string): string -> bool
  {
    (x: string) => x != entry
  }

  /** `handleDeleteGrade`: every occurrence goes, from the catalogue when no
      grade is configured. */
  function RemovedGrade(grades: seq<string>, grade: string): seq<string>
  {
    Filter(ActiveGrades(grades), Other(grade))
  }

  /** `handleDeleteSubject`. */
  function RemovedSubject(subjects: seq<string>, subject: string): seq<string>
  {
    Filter(subjects, Other(subject))
  }

  /** Deleting removes every occurrence of the name and keeps every other
      entry in order; with no grade configured the catalogue is the source. */
  lemma {:induction false} RemovedSpec(grades: seq<string>, subjects: seq<string>, name: string)
    ensures forall x :: x in RemovedGrade(grades, name) <==> x in ActiveGrades(grades) && x != name
    ensures SubsequenceOf(RemovedGrade(grades, name), ActiveGrades(grades))
    ensures grades == [] ==> forall x :: x in RemovedGrade(grades, name) <==> x in GradesList && x != name
    ensures forall x :: x in RemovedSubject(subjects, name) <==> x in subjects && x != name
    ensures SubsequenceOf(RemovedSubject(subjects, name), subjects)
  {
    FilterSubsequence(ActiveGrades(grades), Other(name));
    FilterSubsequence(subjects, Other(name));
  }

  // ------------------------------------------------------- teacher classes

  /** The class inputs of the teacher form. */
  datatype NewClass = NewClass(grade: string, subject: string, shift: string)

  const BlankNewClass: NewClass := NewClass("", "", Morning)

  /** `handleAddTeacherClass`: a class needs a grade and a subject. */
  function WithTeacherClass(classes: seq<TeacherClass>, newClass: NewClass, freshId: string): Option<seq<TeacherClass>>
  {
    if newClass.grade != "" && newClass.subject != ""
    then Some(classes + [TeacherClass(freshId, newClass.grade, newClass.subject, newClass.shift)])
    else None
  }

  function OtherId(id: string): TeacherClass -> bool
  {
    (c: TeacherClass) => c.id != id
  }

  /** `handleRemoveTeacherClass`. */
  function WithoutTeacherClass(classes: seq<TeacherClass>, id: string): seq<TeacherClass>
  {
    Filter(classes, OtherId(id))
  }

  /** A class is added only with a grade and a subject, at the end; removing
      by id keeps every class with another id, in order; removing the class
      just added under a fresh id gives the classes back. */
  lemma {:induction false} TeacherClassSpec(classes: seq<TeacherClass>, newClass: NewClass, freshId: string, id: string)
    ensures WithTeacherClass(classes, newClass, freshId).Some? <==> newClass.grade != "" && newClass.subject != ""
    ensures WithTeacherClass(classes, newClass, freshId).Some? ==>
      var r := WithTeacherClass(classes, newClass, freshId).value;
      && |r| == |classes| + 1 && r[..|classes|] == classes
      && r[|classes|] == TeacherClass(freshId, newClass.grade, newClass.subject, newClass.shift)
    ensures forall c :: c in WithoutTeacherClass(classes, id) <==> c in classes && c.id != id
    ensures SubsequenceOf(WithoutTeacherClass(classes, id), classes)
    ensures (forall i | 0 <= i < |classes| :: classes[i].id != freshId) && WithTeacherClass(classes, newClass, freshId).Some? ==>
      WithoutTeacherClass(WithTeacherClass(classes, newClass, freshId).value, freshId) == classes
  {
    FilterSubsequence(classes, OtherId(id));
    if newClass.grade != "" && newClass.subject != "" {
      var r := WithTeacherClass(classes, newClass, freshId).value;
      assert r[..|classes|] == classes;
      if forall i | 0 <= i < |classes| :: classes[i].id != freshId {
        FilterAll(classes, OtherId(freshId));
      }
    }
  }

  // ----------------------------------------------------------- credentials

  /** `s.replace(/\s+/g, '.')`: each run of blanks becomes one dot. */
  function CollapseBlanks(s: string): string
    decreases |s|
  {
    if s == [] then []
    else if s[0] in JsBlanks then "." + CollapseBlanks(TrimLeft(s[1..], JsBlanks))
    else [s[0]] + CollapseBlanks(s[1..])
  }

  predicate BlankFree(s: string)
  {
    forall i | 0 <= i < |s| :: s[i] !in JsBlanks
  }

  lemma {:induction false} DotIsNotBlank()
    ensures '.' !in JsBlanks
  {
  }

  /** A non-blank in front of a blank-free string keeps it blank-free. */
  lemma {:induction false} BlankFreeCons(c: char, t: string)
    requires c !in JsBlanks && BlankFree(t)
    ensures BlankFree([c] + t)
  {
    forall i | 0 <= i < |[c] + t|
      ensures ([c] + t)[i] !in JsBlanks
    {
      if i > 0 {
        assert ([c] + t)[i] == t[i - 1];
      }
    }
  }

  /** No blank survives. */
  lemma {:induction false} CollapseBlanksSpec(s: string)
    ensures BlankFree(CollapseBlanks(s))
    decreases |s|
  {
    if s != [] {
      if s[0] in JsBlanks {
        var rest := TrimLeft(s[1..], JsBlanks);
        CollapseBlanksSpec(rest);
        DotIsNotBlank();
        BlankFreeCons('.', CollapseBlanks(rest));
        assert CollapseBlanks(s) == "." + CollapseBlanks(rest);
      } else {
        CollapseBlanksSpec(s[1..]);
        BlankFreeCons(s[0], CollapseBlanks(s[1..]));
        assert CollapseBlanks(s) == [s[0]] + CollapseBlanks(s[1..]);
      }
    }
  }

  /** A string without blanks is left alone. */
  lemma {:induction false} CollapseBlankFree(s: string)
    requires BlankFree(s)
    ensures CollapseBlanks(s) == s
  {
    if s != [] {
      assert s[0] !in JsBlanks;
      CollapseBlankFree(s[1..]);
    }
  }

  /** A space in front of a word becomes a dot. */
  lemma {:induction false} CollapseSpace(tail: string)
    requires tail != [] && tail[0] !in JsBlanks
    ensures CollapseBlanks(" " + tail) == "." + CollapseBlanks(tail)
  {
    var s := " " + tail;
    assert s[0] == ' ' && s[1..] == tail;
    assert TrimLeft(tail, JsBlanks) == tail;
  }

  /** Blank-free text in front passes through unchanged. */
  lemma {:induction false} CollapseBlanksPrefix(w: string, rest: string)
    requires BlankFree(w)
    ensures CollapseBlanks(w + rest) == w + CollapseBlanks(rest)
  {
    if w != [] {
      assert (w + rest)[0] == w[0];
      assert (w + rest)[1..] == w[1..] + rest;
      CollapseBlanksPrefix(w[1..], rest);
    } else {
      assert w + rest == rest;
    }
  }

  /** Words separated by single spaces come out separated by dots. */
  lemma {:induction false} CollapseWords(words: seq<string>)
    requires forall i | 0 <= i < |words| :: words[i] != "" && BlankFree(words[i])
    ensures CollapseBlanks(Join(words, " ")) == Join(words, ".")
  {
    if |words| == 1 {
      CollapseBlankFree(words[0]);
    } else if |words| > 1 {
      var tail := Join(words[1..], " ");
      JoinStarts(words[1..], " ");
      assert tail[0] == words[1][0];
      CollapseWords(words[1..]);
      CollapseSpace(tail);
      SplitFirstWord(words, " ");
      SplitFirstWord(words, ".");
      CollapseBlanksPrefix(words[0], " " + tail);
    }
  }

  /** The first word, then the separator and the rest. */
  lemma {:induction false} SplitFirstWord(words: seq<string>, sep: string)
    requires |words| > 1
    ensures Join(words, sep) == words[0] + (sep + Join(words[1..], sep))
  {
    JoinStarts(words, sep);
  }

  const EmailDomain: string := "@professor.com"

  /** The e-mail of a new teacher: the registration, or else the lower-cased
      name with its blank runs turned into dots, at the teachers' domain. */
  function GeneratedEmail(name: string, registration: string): string
  {
    (if registration != "" then registration else CollapseBlanks(ToLower(name))) + EmailDomain
  }

  /** The address is at the teachers' domain; its local part is the
      registration when there is one, and otherwise has no blank. */
  lemma {:induction false} GeneratedEmailSpec(name: string, registration: string)
    ensures var e := GeneratedEmail(name, registration);
      && EndsWith(e, EmailDomain)
      && (registration != "" ==> StartsWith(e, registration))
      && (registration == "" ==> BlankFree(e[..|e| - |EmailDomain|]))
  {
    var local := if registration != "" then registration else CollapseBlanks(ToLower(name));
    var e := local + EmailDomain;
    assert e[|e| - |EmailDomain|..] == EmailDomain;
    assert e[..|local|] == local;
    CollapseBlanksSpec(ToLower(name));
  }

  function AvatarUrl(name: string): string
  {
    "https://ui-avatars.com/api/?name=" + name + "&background=random"
  }

  /** The form the teacher modal opens with: the teacher without a password,
      or a blank teacher. */
  function OpenedTeacher(teacher: Option<StaffUser>): StaffUser
  {
    match teacher
    case Some(t) => t.(password := "")
    case None => StaffUser("", "", "", "", Teacher, "", "", [], [])
  }

  /** `handleSaveTeacher`: the user sent to the server, none without a name. */
  function SavedTeacher(form: StaffUser, editing: Option<StaffUser>, freshId: string): Option<StaffUser>
  {
    if form.name == "" then None
    else
      Some(StaffUser(
        if editing.Some? && editing.value.id != "" then editing.value.id else freshId,
        form.name,
        if editing.Some? && editing.value.email != "" then editing.value.email
        else GeneratedEmail(form.name, form.registration),
        if editing.None? then "123" else editing.value.password,
        Teacher,
        form.registration,
        if form.photoUrl != "" then form.photoUrl else AvatarUrl(form.name),
        form.allowedGrades,
        form.classes))
  }

  /** A teacher is saved only with a name, always as a Teacher with the
      form's name, registration, grades and classes. A new one gets the
      fresh id, the generated address and the password 123; an edited one
      keeps its id, its address and its password. */
  lemma {:induction false} SavedTeacherSpec(form: StaffUser, editing: Option<StaffUser>, freshId: string)
    ensures SavedTeacher(form, editing, freshId).Some? <==> form.name != ""
    ensures SavedTeacher(form, editing, freshId).Some? ==>
      var u := SavedTeacher(form, editing, freshId).value;
      && u.role == Teacher && u.name == form.name && u.registration == form.registration
      && u.allowedGrades == form.allowedGrades && u.classes == form.classes
      && u.photoUrl != ""
      && (editing.None? ==> u.id == freshId && u.password == "123" && u.email == GeneratedEmail(form.name, form.registration))
      && (editing.Some? ==> u.password == editing.value.password)
      && (editing.Some? && editing.value.id != "" ==> u.id == editing.value.id)
      && (editing.Some? && editing.value.email != "" ==> u.email == editing.value.email)
  {
  }

  /** Opening a teacher and saving without edits gives the teacher back. */
  lemma {:induction false} OpenThenSave(t: StaffUser, freshId: string)
    requires t.name != "" && t.id != "" && t.email != "" && t.photoUrl != "" && t.role == Teacher
    ensures SavedTeacher(OpenedTeacher(Some(t)), Some(t), freshId) == Some(t)
  {
  }

  /** The teacher modal: the form, the class inputs and the teacher being
      edited. */
  class TeacherEditor {
    var teacherForm: StaffUser
    var newTeacherClass: NewClass
    var editingTeacher: Option<StaffUser>
    var isTeacherModalOpen: bool

    constructor()
      ensures teacherForm == OpenedTeacher(None) && newTeacherClass == BlankNewClass
      ensures editingTeacher.None? && !isTeacherModalOpen
    {
      teacherForm := OpenedTeacher(None);
      newTeacherClass := BlankNewClass;
      editingTeacher := None;
      isTeacherModalOpen := false;
    }

    /** `handleOpenTeacherModal`. */
    method OpenTeacherModal(teacher: Option<StaffUser>)
      modifies this
      ensures teacherForm == OpenedTeacher(teacher) && editingTeacher == teacher
      ensures newTeacherClass == BlankNewClass && isTeacherModalOpen
    {
      editingTeacher := teacher;
      teacherForm := OpenedTeacher(teacher);
      newTeacherClass := BlankNewClass;
      isTeacherModalOpen := true;
    }

    /** `handleAddTeacherClass`: without a grade and a subject nothing changes. */
    method AddTeacherClass(freshId: string)
      modifies this
      ensures var added := WithTeacherClass(old(teacherForm).classes, old(newTeacherClass), freshId);
        && (added.Some? ==> teacherForm == old(teacherForm).(classes := added.value) && newTeacherClass == BlankNewClass)
        && (added.None? ==> teacherForm == old(teacherForm) && newTeacherClass == old(newTeacherClass))
      ensures editingTeacher == old(editingTeacher) && isTeacherModalOpen == old(isTeacherModalOpen)
    {
      var added := WithTeacherClass(teacherForm.classes, newTeacherClass, freshId);
      if added.Some? {
        teacherForm := teacherForm.(classes := added.value);
        newTeacherClass := BlankNewClass;
      }
    }

    /** `handleRemoveTeacherClass`. */
    method RemoveTeacherClass(id: string)
      modifies this
      ensures teacherForm == old(teacherForm).(classes := WithoutTeacherClass(old(teacherForm).classes, id))
      ensures newTeacherClass == old(newTeacherClass) && editingTeacher == old(editingTeacher)
      ensures isTeacherModalOpen == old(isTeacherModalOpen)
    {
      teacherForm := teacherForm.(classes := WithoutTeacherClass(teacherForm.classes, id));
    }

    /** `handleSaveTeacher`: the user handed to the server; the modal closes
        once it is sent and stays open after the missing-name alert. */
    method SaveTeacher(freshId: string) returns (saved: Option<StaffUser>)
      modifies this
      ensures saved == SavedTeacher(old(teacherForm), old(editingTeacher), freshId)
      ensures isTeacherModalOpen == (saved.None? && old(isTeacherModalOpen))
      ensures teacherForm == old(teacherForm) && newTeacherClass == old(newTeacherClass)
      ensures editingTeacher == old(editingTeacher)
    {
      saved := SavedTeacher(teacherForm, editingTeacher, freshId);
      if saved.Some? {
        isTeacherModalOpen := false;
      }
    }
  }

  // --------------------------------------------------------------- options

  /** `state.users.find(u => u.id === id)`. */
  function FindUser(users: seq<StaffUser>, id: string): (r: Option<StaffUser>)
  {
    if users == [] then None
    else if users[0].id == id then Some(users[0])
    else FindUser(users[1..], id)
  }

  /** The first user with the id, none when there is no such user. */
  lemma {:induction false} FindUserSpec(users: seq<StaffUser>, id: string)
    ensures FindUser(users, id).None? <==> forall i | 0 <= i < |users| :: users[i].id != id
    ensures FindUser(users, id).Some? ==>
      exists i | 0 <= i < |users| :: users[i] == FindUser(users, id).value && users[i].id == id
                                     && forall j | 0 <= j < i :: users[j].id != id
  {
    if users != [] && users[0].id != id {
      FindUserSpec(users[1..], id);
      if FindUser(users[1..], id).Some? {
        var i :| 0 <= i < |users[1..]| && users[1..][i] == FindUser(users[1..], id).value && users[1..][i].id == id
                 && forall j | 0 <= j < i :: users[1..][j].id != id;
        assert users[i + 1] == users[1..][i];
        forall j | 0 <= j < i + 1
          ensures users[j].id != id
        {
          if j > 0 {
            assert users[j] == users[1..][j - 1];
          }
        }
      }
      forall i | 0 < i < |users|
        ensures users[i] == users[1..][i - 1]
      {
      }
    }
  }

  /** The classes of the teacher in the chosen grade, or all of them. */
  function ClassesIn(teacher: StaffUser, grade: string): seq<TeacherClass>
  {
    if grade != "" then Filter(teacher.classes, (c: TeacherClass) => c.grade == grade) else teacher.classes
  }

  function GradeOfClass(): TeacherClass -> string
  {
    (c: TeacherClass) => c.grade
  }

  /** `c.shift || 'Manhã'`. */
  function ShiftOfClass(): TeacherClass -> string
  {
    (c: TeacherClass) => if c.shift != "" then c.shift else Morning
  }

  function SubjectOfClass(): TeacherClass -> string
  {
    (c: TeacherClass) => c.subject
  }

  const BothShifts: seq<string> := [Morning, Afternoon]

  /** `getTeacherGrades`. */
  function TeacherGrades(users: seq<StaffUser>, teacherId: string, grades: seq<string>): seq<string>
  {
    if teacherId == "" then ActiveGrades(grades)
    else
      match FindUser(users, teacherId)
      case Some(t) => if |t.classes| > 0 then Dedupe(Project(t.classes, GradeOfClass())) else ActiveGrades(grades)
      case None => ActiveGrades(grades)
  }

  /** `getTeacherShifts`. */
  function TeacherShifts(users: seq<StaffUser>, teacherId: string, grade: string): seq<string>
  {
    if teacherId == "" then BothShifts
    else
      match FindUser(users, teacherId)
      case Some(t) =>
        if |t.classes| > 0 then
          var shifts := Dedupe(Project(ClassesIn(t, grade), ShiftOfClass()));
          if |shifts| > 0 then shifts else BothShifts
        else BothShifts
      case None => BothShifts
  }

  /** `getTeacherSubjects`. */
  function TeacherSubjects(users: seq<StaffUser>, teacherId: string, grade: string, subjects: seq<string>): seq<string>
  {
    if teacherId == "" then subjects
    else
      match FindUser(users, teacherId)
      case Some(t) =>
        if |t.classes| > 0 then
          var found := Dedupe(Project(ClassesIn(t, grade), SubjectOfClass()));
          if |found| > 0 then found else subjects
        else subjects
      case None => subjects
  }

  /** The values of the classes, each once. */
  lemma {:induction false} DistinctValues(classes: seq<TeacherClass>, f: TeacherClass -> string)
    ensures Distinct(Dedupe(Project(classes, f)))
    ensures forall x :: x in Dedupe(Project(classes, f)) <==> exists c | c in classes :: f(c) == x
  {
    var p := Project(classes, f);
    DedupeSpec(p);
    forall x
      ensures x in p <==> exists c | c in classes :: f(c) == x
    {
      if exists c | c in classes :: f(c) == x {
        var c :| c in classes && f(c) == x;
        var i :| 0 <= i < |classes| && classes[i] == c;
        assert p[i] == x;
      }
    }
  }

  /** The options of a selected teacher with classes are the distinct
      values of those classes (restricted to the chosen grade for shifts
      and subjects, a missing shift read as Manhã). The shifts fall back to
      both shifts and the subjects to the catalogue exactly when no class is
      left after the grade filter; with no teacher selected, an unknown
      teacher or one without classes, every list falls back: to the grades
      in use, to both shifts, to the subject catalogue. */
  lemma {:induction false} OptionsSpec(users: seq<StaffUser>, teacherId: string, grade: string, grades: seq<string>, subjects: seq<string>)
    ensures (|| teacherId == ""
             || (forall i | 0 <= i < |users| :: users[i].id != teacherId)
             || (FindUser(users, teacherId).Some? && |FindUser(users, teacherId).value.classes| == 0)) ==>
      && TeacherGrades(users, teacherId, grades) == ActiveGrades(grades)
      && TeacherShifts(users, teacherId, grade) == BothShifts
      && TeacherSubjects(users, teacherId, grade, subjects) == subjects
    ensures teacherId != "" && FindUser(users, teacherId).Some? && |FindUser(users, teacherId).value.classes| > 0 ==>
      var t := FindUser(users, teacherId).value;
      && Distinct(TeacherGrades(users, teacherId, grades))
      && (forall g :: g in TeacherGrades(users, teacherId, grades) <==> exists c | c in t.classes :: c.grade == g)
      && (ClassesIn(t, grade) == [] ==>
            && TeacherShifts(users, teacherId, grade) == BothShifts
            && TeacherSubjects(users, teacherId, grade, subjects) == subjects)
      && (ClassesIn(t, grade) != [] ==>
            && Distinct(TeacherShifts(users, teacherId, grade))
            && (forall s :: s in TeacherShifts(users, teacherId, grade) <==>
                  exists c | c in ClassesIn(t, grade) :: ShiftOfClass()(c) == s)
            && Distinct(TeacherSubjects(users, teacherId, grade, subjects))
            && (forall s :: s in TeacherSubjects(users, teacherId, grade, subjects) <==>
                  exists c | c in ClassesIn(t, grade) :: SubjectOfClass()(c) == s))
    ensures |TeacherShifts(users, teacherId, grade)| > 0
  {
    FindUserSpec(users, teacherId);
    if teacherId != "" && FindUser(users, teacherId).Some? {
      var t := FindUser(users, teacherId).value;
      DistinctValues(t.classes, GradeOfClass());
      ClassValues(ClassesIn(t, grade), ShiftOfClass());
      ClassValues(ClassesIn(t, grade), SubjectOfClass());
    }
  }

  /** The distinct values of some classes are empty exactly when there are
      no classes. */
  lemma {:induction false} ClassValues(classes: seq<TeacherClass>, f: TeacherClass -> string)
    ensures classes == [] <==> |Dedupe(Project(classes, f))| == 0
    ensures Distinct(Dedupe(Project(classes, f)))
    ensures forall x :: x in Dedupe(Project(classes, f)) <==> exists c | c in classes :: f(c) == x
  {
    DistinctValues(classes, f);
    if classes != [] {
      assert f(classes[0]) in Dedupe(Project(classes, f));
    } else {
      assert Project(classes, f) == [];
      DedupeSpec(Project(classes, f));
    }
  }

  // ---------------------------------------------------------------- status

  /** The status badge is green for a delivery on time or early. */
  predicate StatusGreen(status: string)
  {
    status == "No Prazo" || status == "Em Dias" || status == "Antecipado"
  }

  /** The statuses the record form offers, in the select's order. */
  const StatusOptions: seq<string> := ["No Prazo", "Antecipado", "Fora do prazo", "Em Dias", "Atrasado"]

  /** Of the offered statuses, the late ones ("Fora do prazo", "Atrasado")
      are red and the other three green; a new record's default status is
      green. */
  lemma {:induction false} StatusColours()
    ensures forall i | 0 <= i < |StatusOptions| :: StatusGreen(StatusOptions[i]) <==> i != 2 && i != 4
    ensures StatusGreen("No Prazo")
  {
    assert !StatusGreen("Fora do prazo") by {
      assert "Fora do prazo"[0] != "No Prazo"[0] && |"Fora do prazo"| != |"Em Dias"| && |"Fora do prazo"| != |"Antecipado"|;
    }
    assert !StatusGreen("Atrasado") by {
      assert |"Atrasado"| != |"No Prazo"| || "Atrasado"[0] != "No Prazo"[0];
      assert |"Atrasado"| != |"Em Dias"|;
      assert "Atrasado"[1] != "Antecipado"[1];
    }
    assert StatusGreen("Em Dias");
  }
}
