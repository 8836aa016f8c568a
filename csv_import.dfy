/**
 * The student CSV import (`handleImportCSV` in App.tsx): the delimiter
 * choice, the mapping of a row of at least eight columns to a student, the
 * loop that collects the saved students and counts successes and failures,
 * and the merge of the saved students into the list.
 *
 * The random id and the random avatar seed of line i are the parameters
 * `freshId(i)` and `photoSeed(i)`; the server's `saveStudent` is taken to
 * accept the student and return it unchanged.
 */
module CsvImport {
  import opened Wrappers
  import opened Text
  import opened Domain
  import opened Constants
  import opened Folds

  const UnknownGrade: string := "Não Identificado"
  const DefaultBookStatus: string := "Nao Comprou"
  const DefaultPeStatus: string := "Pendente"
  const AvatarPrefix: string := "https://api.dicebear.com/7.x/avataaars/svg?seed="

  // ------------------------------------------------------------ the file

  /** The delimiter: ';' when the file holds one anywhere, ',' otherwise. */
  function Delimiter(text: string): char
  {
    if ';' in text then ';' else ','
  }

  /** The lines after the header that are not blank. */
  function DataLines(text: string): seq<string>
  {
    Filter(Split(text, '\n')[1..], (line: string) => Trim(line) != "")
  }

  /** `replace(/^"|"$/g, '')`: one double quote is dropped at each end. */
  function Unquote(s: string): string
  {
    var t := if |s| > 0 && s[0] == '"' then s[1..] else s;
    if |t| > 0 && t[|t| - 1] == '"' then t[..|t| - 1] else t
  }

  /** A quoted cell loses its quotes; a cell without quotes at its ends is kept. */
  lemma {:induction false} UnquoteSpec(t: string)
    ensures Unquote("\"" + t + "\"") == t
    ensures (t == [] || (t[0] != '"' && t[|t| - 1] != '"')) ==> Unquote(t) == t
  {
    var s := "\"" + t + "\"";
    assert s[1..] == t + "\"";
    assert (t + "\"")[..|t|] == t;
  }

  /** The cells of a line: split at the delimiter, trimmed and unquoted. */
  function Columns(line: string, delimiter: char): seq<string>
  {
    var parts := Split(line, delimiter);
    seq(|parts|, i requires 0 <= i < |parts| => Unquote(Trim(parts[i])))
  }

  // --------------------------------------------------------- one column

  /** `IMPORT_GRADE_MAP[code] || "Não Identificado"`. */
  function GradeOf(code: string): string
  {
    if code in ImportGradeMap then ImportGradeMap[code] else UnknownGrade
  }

  /** The imported grade is one of the school's grades, or the marker for
      an unknown code; a known code gives its grade. */
  lemma {:induction false} GradeOfSpec(code: string)
    ensures GradeOf(code) in GradesList || GradeOf(code) == UnknownGrade
    ensures GradeOf(code) == UnknownGrade <==> code !in ImportGradeMap
  {
    ImportGradeMapIsBijection();
    UnknownGradeNotListed();
  }

  lemma {:induction false} UnknownGradeNotListed()
    ensures UnknownGrade !in GradesList
  {
  }

  /** Upper-casing of the ASCII letters. */
  function UpperChar(c: char): char
  {
    if 'a' <= c <= 'z' then (c as int - 32) as char else c
  }

  function ToUpper(s: string): string
  {
    seq(|s|, i requires 0 <= i < |s| => UpperChar(s[i]))
  }

  /** 'Tarde' when the trimmed cell reads T or TARDE in any case, else 'Manhã'. */
  function ShiftOf(raw: string): string
  {
    var word := ToUpper(Trim(raw));
    if word == "T" || word == "TARDE" then Afternoon else Morning
  }

  /** The shift is always one of the two the school has. */
  lemma {:induction false} ShiftOfSpec(raw: string)
    ensures ShiftOf(raw) in ShiftsList
    ensures ShiftOf(raw) == Afternoon <==> ToUpper(Trim(raw)) in {"T", "TARDE"}
  {
  }

  /** `const [day, month, year] = raw.split('/')` and `${year}-${month}-${day}`;
      a missing part reads "undefined". A cell without '/' is kept. */
  function BirthDateOf(raw: string): string
  {
    if '/' in raw then
      var parts := Split(raw, '/');
      var month := if |parts| > 1 then parts[1] else "undefined";
      var year := if |parts| > 2 then parts[2] else "undefined";
      year + "-" + month + "-" + parts[0]
    else raw
  }

  /** A date "dd/mm/yyyy" becomes "yyyy-mm-dd"; a cell without '/' is kept. */
  lemma {:induction false} BirthDateSpec(day: string, month: string, year: string, raw: string)
    requires '/' !in day && '/' !in month && '/' !in year
    ensures BirthDateOf(day + "/" + month + "/" + year) == year + "-" + month + "-" + day
    ensures '/' !in raw ==> BirthDateOf(raw) == raw
  {
    var s := day + "/" + month + "/" + year;
    JoinThree(day, month, year, "/");
    SplitJoin([day, month, year], '/');
    assert s[|day|] == '/';
  }

  /** With two parts the year is missing: "01/2020" becomes "undefined-2020-01". */
  lemma {:induction false} BirthDateTwoParts(day: string, month: string)
    requires '/' !in day && '/' !in month
    ensures BirthDateOf(day + "/" + month) == "undefined-" + month + "-" + day
  {
    var s := day + "/" + month;
    assert [day, month][1..] == [month];
    assert Join([day, month], "/") == s;
    SplitJoin([day, month], '/');
    assert s[|day|] == '/';
  }

  // ------------------------------------------------------------ one row

  /** `existingStudentsMap`: registration to student; a later student with
      the same registration replaces an earlier one. */
  function RegistrationIndex(students: seq<Student>): map<string, Student>
  {
    IndexBy(students, (s: Student) => s.registration)
  }

  /** A registration is indexed exactly when some student has it, and it
      leads to the last student with that registration. */
  lemma {:induction false} RegistrationIndexSpec(students: seq<Student>, registration: string)
    ensures registration in RegistrationIndex(students) <==>
            exists i | 0 <= i < |students| :: students[i].registration == registration
    ensures registration in RegistrationIndex(students) ==>
            exists i | 0 <= i < |students| ::
              && students[i] == RegistrationIndex(students)[registration]
              && students[i].registration == registration
              && forall j | i < j < |students| :: students[j].registration != registration
  {
    IndexBySpec(students, (s: Student) => s.registration, registration);
  }

  /** The student an imported registration refers to, if any. */
  function Existing(index: map<string, Student>, registration: string): Option<Student>
  {
    if registration in index then Some(index[registration]) else None
  }

  /** What the row keeps of a student it does not know: nothing. */
  const Unknown: Student := Student("", "", "", "", "", "", "", "", "", "", "", "", "", "", "", false)

  function OrDefault(s: string, default: string): string
  {
    if s == "" then default else s
  }

  /** `studentToSave` for a row of at least eight columns: code, shift,
      registration, name, birth date, number, mother's phone, mother's name. */
  function RowStudent(cols: seq<string>, existing: Option<Student>, freshId: string, photoSeed: string): Student
    requires |cols| >= 8
  {
    var known := existing.GetOr(Unknown);
    Student(
      if existing.Some? then known.id else freshId,
      cols[3], cols[2], cols[5], BirthDateOf(cols[4]), GradeOf(cols[0]), ShiftOf(cols[1]),
      known.email,
      OrDefault(known.photoUrl, AvatarPrefix + photoSeed),
      known.fatherName, known.fatherPhone,
      cols[7], cols[6],
      OrDefault(known.bookStatus, DefaultBookStatus),
      OrDefault(known.peStatus, DefaultPeStatus),
      known.turnstileRegistered)
  }

  /** A known registration keeps the student's id, contacts, book and
      certificate statuses and turnstile flag; a new one gets the fresh id
      and the default statuses. Either way the row sets the registration,
      a grade of the school or the unknown marker, and one of the two
      shifts. */
  lemma {:induction false} RowStudentSpec(cols: seq<string>, existing: Option<Student>, freshId: string, photoSeed: string)
    requires |cols| >= 8
    ensures var s := RowStudent(cols, existing, freshId, photoSeed);
      && s.registration == cols[2]
      && (s.grade in GradesList || s.grade == UnknownGrade)
      && s.shift in ShiftsList
      && s.bookStatus != "" && s.peStatus != "" && s.photoUrl != ""
      && (existing.Some? ==>
            && s.id == existing.value.id && s.email == existing.value.email
            && s.fatherPhone == existing.value.fatherPhone
            && s.turnstileRegistered == existing.value.turnstileRegistered
            && (existing.value.bookStatus != "" ==> s.bookStatus == existing.value.bookStatus)
            && (existing.value.peStatus != "" ==> s.peStatus == existing.value.peStatus))
      && (existing.None? ==>
            && s.id == freshId && s.bookStatus == DefaultBookStatus && s.peStatus == DefaultPeStatus
            && !s.turnstileRegistered && s.email == "")
  {
    GradeOfSpec(cols[0]);
    ShiftOfSpec(cols[1]);
  }

  /** One data line: a student when it has at least eight columns. */
  function ImportRow(line: string, delimiter: char, index: map<string, Student>, freshId: string, photoSeed: string): Option<Student>
  {
    var cols := Columns(line, delimiter);
    if |cols| >= 8 then Some(RowStudent(cols, Existing(index, cols[2]), freshId, photoSeed)) else None
  }

  /** The line-by-line collection: line i contributes `row(line, i)` when
      that is a value. */
  function Collect<T>(lines: seq<string>, row: (string, nat) -> Option<T>): seq<T>
  {
    if lines == [] then []
    else
      var n := |lines| - 1;
      var rest := Collect(lines[..n], row);
      match row(lines[n], n)
      case Some(x) => rest + [x]
      case None => rest
  }

  /** One more line adds its value, if it has one, at the end. */
  lemma {:induction false} CollectSnoc<T>(lines: seq<string>, row: (string, nat) -> Option<T>, line: string)
    ensures Collect(lines + [line], row) ==
            match row(line, |lines|)
            case Some(x) => Collect(lines, row) + [x]
            case None => Collect(lines, row)
  {
    assert (lines + [line])[..|lines|] == lines;
  }

  /** When a line yields a value exactly when it satisfies p, one value is
      collected per such line, and each comes from its own line. */
  lemma {:induction false} CollectSpec<T>(lines: seq<string>, row: (string, nat) -> Option<T>, p: string -> bool)
    requires forall line, i :: row(line, i).Some? <==> p(line)
    ensures |Collect(lines, row)| == CountWhere(lines, p)
    ensures forall k | 0 <= k < |Collect(lines, row)| ::
              exists i | 0 <= i < |lines| :: row(lines[i], i) == Some(Collect(lines, row)[k])
  {
    if lines != [] {
      var n := |lines| - 1;
      var init := lines[..n];
      CollectSpec(init, row, p);
      var rest := Collect(init, row);
      var r := Collect(lines, row);
      forall k | 0 <= k < |r|
        ensures exists i | 0 <= i < |lines| :: row(lines[i], i) == Some(r[k])
      {
        if k < |rest| {
          var i :| 0 <= i < n && row(init[i], i) == Some(rest[k]);
          assert lines[i] == init[i];
        } else {
          assert row(lines[n], n) == Some(r[k]);
        }
      }
    }
  }

  /** A line yields a student exactly when it has eight columns, and the
      student carries the line's registration. */
  lemma {:induction false} ImportRowSpec(line: string, delimiter: char, index: map<string, Student>, freshId: string, photoSeed: string)
    ensures var r := ImportRow(line, delimiter, index, freshId, photoSeed);
      && (r.Some? <==> |Columns(line, delimiter)| >= 8)
      && (r.Some? ==> r.value.registration == Columns(line, delimiter)[2])
  {
  }

  /** The row function of the import: line i draws `freshId(i)` and `photoSeed(i)`. */
  function RowOf(delimiter: char, index: map<string, Student>, freshId: nat -> string, photoSeed: nat -> string)
    : (string, nat) -> Option<Student>
  {
    (line: string, i: nat) => ImportRow(line, delimiter, index, freshId(i), photoSeed(i))
  }

  /** `processedStudents` after the given data lines. */
  function ImportedRows(lines: seq<string>, delimiter: char, index: map<string, Student>,
                        freshId: nat -> string, photoSeed: nat -> string): seq<Student>
  {
    Collect(lines, RowOf(delimiter, index, freshId, photoSeed))
  }

  function Wide(delimiter: char): string -> bool
  {
    (line: string) => |Columns(line, delimiter)| >= 8
  }

  /** One student is saved per data line of at least eight columns, in line
      order, each with the registration of its own line. */
  lemma {:induction false} ImportedRowsSpec(lines: seq<string>, delimiter: char, index: map<string, Student>,
                         freshId: nat -> string, photoSeed: nat -> string)
    ensures var r := ImportedRows(lines, delimiter, index, freshId, photoSeed);
      && |r| == CountWhere(lines, Wide(delimiter))
      && forall k | 0 <= k < |r| :: exists i | 0 <= i < |lines| ::
           Wide(delimiter)(lines[i]) && r[k].registration == Columns(lines[i], delimiter)[2]
  {
    var row := RowOf(delimiter, index, freshId, photoSeed);
    forall line, i
      ensures row(line, i).Some? <==> Wide(delimiter)(line)
    {
      ImportRowSpec(line, delimiter, index, freshId(i), photoSeed(i));
    }
    CollectSpec(lines, row, Wide(delimiter));
    var r := Collect(lines, row);
    forall k | 0 <= k < |r|
      ensures exists i | 0 <= i < |lines| :: Wide(delimiter)(lines[i]) && r[k].registration == Columns(lines[i], delimiter)[2]
    {
      var i :| 0 <= i < |lines| && row(lines[i], i) == Some(r[k]);
      ImportRowSpec(lines[i], delimiter, index, freshId(i), photoSeed(i));
    }
  }

  /** The import loop over the data lines: line i is saved when
      `row(line, i)` yields a student (`ImportRow`: eight columns or more),
      and counted as a failure otherwise. */
  method ImportRows(dataLines: seq<string>, row: (string, nat) -> Option<Student>)
    returns (processed: seq<Student>, successCount: nat, failCount: nat)
    ensures processed == Collect(dataLines, row)
    ensures successCount == |processed| && successCount + failCount == |dataLines|
  {
    processed := [];
    successCount := 0;
    failCount := 0;
    var i := 0;
    while i < |dataLines|
      invariant 0 <= i <= |dataLines|
      invariant processed == Collect(dataLines[..i], row)
      invariant successCount == |processed| && successCount + failCount == i
    {
      assert dataLines[..i + 1] == dataLines[..i] + [dataLines[i]];
      CollectSnoc(dataLines[..i], row, dataLines[i]);
      var saved := row(dataLines[i], i);
      match saved {
        case Some(student) =>
          processed := processed + [student];
          successCount := successCount + 1;
        case None =>
          failCount := failCount + 1;
      }
      i := i + 1;
    }
    assert dataLines[..i] == dataLines;
  }

  // ----------------------------------------------------------- the merge

  /** One saved student: it replaces the first student with its id, or is appended. */
  function MergeOne(students: seq<Student>, saved: Student): seq<Student>
  {
    var i := StudentIndex(students, saved.id);
    if i >= 0 then students[i := saved] else students + [saved]
  }

  /** The optimistic update: the saved students merged in order. */
  function MergeAll(students: seq<Student>, processed: seq<Student>): seq<Student>
  {
    if processed == [] then students
    else MergeOne(MergeAll(students, processed[..|processed| - 1]), processed[|processed| - 1])
  }

  /** The ids of a list of students. */
  function Ids(students: seq<Student>): set<string>
  {
    if students == [] then {} else Ids(students[..|students| - 1]) + {students[|students| - 1].id}
  }

  lemma {:induction false} IdsMember(students: seq<Student>, id: string)
    ensures id in Ids(students) <==> exists i | 0 <= i < |students| :: students[i].id == id
  {
    if students != [] {
      var n := |students| - 1;
      IdsMember(students[..n], id);
      if exists i | 0 <= i < |students| :: students[i].id == id {
        var i :| 0 <= i < |students| && students[i].id == id;
        if i < n {
          assert students[..n][i].id == id;
        }
      }
      if exists i | 0 <= i < n :: students[..n][i].id == id {
        var i :| 0 <= i < n && students[..n][i].id == id;
        assert students[i].id == id;
      }
    }
  }

  /** Merging one student puts it in the list, keeps every other position,
      and grows the list only when its id was new. */
  lemma {:induction false} MergeOneShape(students: seq<Student>, saved: Student)
    ensures var r := MergeOne(students, saved);
      && saved in r
      && |r| == |students| + (if saved.id in Ids(students) then 0 else 1)
      && (forall i | 0 <= i < |students| && students[i].id != saved.id :: r[i] == students[i])
  {
    IdsMember(students, saved.id);
    var i := StudentIndex(students, saved.id);
    var r := MergeOne(students, saved);
    if i >= 0 {
      assert r[i] == saved;
    } else {
      assert r[|students|] == saved;
    }
  }

  /** Replacing a student by one with the same id keeps the ids. */
  lemma {:induction false} IdsUpdate(students: seq<Student>, i: nat, saved: Student)
    requires i < |students| && students[i].id == saved.id
    ensures Ids(students[i := saved]) == Ids(students)
  {
    var n := |students| - 1;
    var r := students[i := saved];
    if i < n {
      assert r[..n] == students[..n][i := saved];
      IdsUpdate(students[..n], i, saved);
    } else {
      assert r[..n] == students[..n];
    }
  }

  /** Merging one student adds its id to the list's ids and removes none. */
  lemma {:induction false} MergeOneIds(students: seq<Student>, saved: Student)
    ensures Ids(MergeOne(students, saved)) == Ids(students) + {saved.id}
  {
    var i := StudentIndex(students, saved.id);
    if i >= 0 {
      IdsUpdate(students, i, saved);
      IdsMember(students, saved.id);
    } else {
      assert (students + [saved])[..|students|] == students;
    }
  }

  /** After the merge the list has every id it had and every saved id, and
      a student whose id no saved student has keeps its position. */
  lemma {:induction false} MergeAllKeeps(students: seq<Student>, processed: seq<Student>)
    ensures var r := MergeAll(students, processed);
      && |students| <= |r|
      && Ids(r) == Ids(students) + Ids(processed)
      && (forall i | 0 <= i < |students| && students[i].id !in Ids(processed) :: r[i] == students[i])
  {
    if processed != [] {
      var n := |processed| - 1;
      MergeAllKeeps(students, processed[..n]);
      MergeOneShape(MergeAll(students, processed[..n]), processed[n]);
      MergeOneIds(MergeAll(students, processed[..n]), processed[n]);
    }
  }

  /** The merge keeps the students and ids there were, adds the saved ids,
      and ends with every saved student that no later saved student shares
      an id with. */
  lemma {:induction false} MergeAllSpec(students: seq<Student>, processed: seq<Student>)
    ensures var r := MergeAll(students, processed);
      && |students| <= |r|
      && Ids(r) == Ids(students) + Ids(processed)
      && (forall i | 0 <= i < |students| && students[i].id !in Ids(processed) :: r[i] == students[i])
      && (forall k | 0 <= k < |processed| && LastWithId(processed, k) :: processed[k] in r)
  {
    MergeAllKeeps(students, processed);
    forall k | 0 <= k < |processed| && LastWithId(processed, k)
      ensures processed[k] in MergeAll(students, processed)
    {
      MergeAllHolds(students, processed, k);
    }
  }

  /** No student after the k-th has its id. */
  predicate LastWithId(processed: seq<Student>, k: nat)
    requires k < |processed|
  {
    forall l | k < l < |processed| :: processed[l].id != processed[k].id
  }

  /** A saved student that no later saved student shares an id with ends
      in the merged list. */
  lemma {:induction false} MergeAllHolds(students: seq<Student>, processed: seq<Student>, k: nat)
    requires k < |processed| && LastWithId(processed, k)
    ensures processed[k] in MergeAll(students, processed)
  {
    var n := |processed| - 1;
    var init := processed[..n];
    var mid := MergeAll(students, init);
    assert MergeAll(students, processed) == MergeOne(mid, processed[n]);
    MergeOneShape(mid, processed[n]);
    if k < n {
      assert init[k] == processed[k];
      assert processed[n].id != processed[k].id;
      assert LastWithId(init, k);
      MergeAllHolds(students, init, k);
      var j :| 0 <= j < |mid| && mid[j] == processed[k];
      assert MergeOne(mid, processed[n])[j] == mid[j];
    }
  }

  /** The state update's loop over the saved students. */
  method MergeProcessed(students: seq<Student>, processed: seq<Student>) returns (current: seq<Student>)
    ensures current == MergeAll(students, processed)
  {
    current := students;
    var k := 0;
    while k < |processed|
      invariant 0 <= k <= |processed|
      invariant current == MergeAll(students, processed[..k])
    {
      assert processed[..k + 1][..k] == processed[..k];
      var index := StudentIndex(current, processed[k].id);
      if index != -1 {
        current := current[index := processed[k]];
      } else {
        current := current + [processed[k]];
      }
      k := k + 1;
    }
    assert processed[..k] == processed;
  }

  /** The whole import: the new student list and the two counts. */
  method ImportCsv(students: seq<Student>, text: string, freshId: nat -> string, photoSeed: nat -> string)
    returns (updated: seq<Student>, successCount: nat, failCount: nat)
    ensures var lines := DataLines(text);
      var processed := ImportedRows(lines, Delimiter(text), RegistrationIndex(students), freshId, photoSeed);
      && updated == MergeAll(students, processed)
      && successCount == |processed| == CountWhere(lines, Wide(Delimiter(text)))
      && successCount + failCount == |lines|
  {
    var delimiter := Delimiter(text);
    var dataLines := DataLines(text);
    var existing := RegistrationIndex(students);
    var processed;
    processed, successCount, failCount := ImportRows(dataLines, RowOf(delimiter, existing, freshId, photoSeed));
    ImportedRowsSpec(dataLines, delimiter, existing, freshId, photoSeed);
    updated := MergeProcessed(students, processed);
  }
}
