/**
 * The phone import (`handleImportPhones` in App.tsx): lines
 * "Matrícula|-GS-|Nome|Mãe|Pai|Responsável|" give each known student new
 * mother and father phones; phones shared by several registrations are
 * reported; the saved students are then merged into the list.
 *
 * The server's `saveStudent` is modelled as an update of the stored student
 * with the same id, the saves happening in order.
 */
module PhoneImport {
  import opened Wrappers
  import opened Text
  import opened Domain
  import opened Folds

  // ------------------------------------------------------------ one line

  function TrimmedRegistration(): Student -> string
  {
    (s: Student) => Trim(s.registration)
  }

  /** `studentMap`: trimmed registration to student; a later student with
      the same trimmed registration replaces an earlier one. */
  function TrimmedIndex(students: seq<Student>): map<string, Student>
  {
    IndexBy(students, TrimmedRegistration())
  }

  /** `isValidPhone`: no ASCII letter, and at least eight digits. */
  predicate ValidPhone(p: string)
  {
    (forall i | 0 <= i < |p| :: !IsAsciiLetter(p[i])) && |DigitsOnly(p)| >= 8
  }

  /** What a line that reaches the lookup carries. */
  datatype PhoneLine = PhoneLine(registration: string, motherPhone: string, fatherPhone: string)

  function TrimEach(parts: seq<string>, b: set<char>): (r: seq<string>)
    ensures |r| == |parts|
  {
    if parts == [] then [] else [TrimWith(parts[0], b)] + TrimEach(parts[1..], b)
  }

  lemma {:induction false} TrimEachFixed(parts: seq<string>, b: set<char>)
    requires forall i | 0 <= i < |parts| :: Trimmed(parts[i], b)
    ensures TrimEach(parts, b) == parts
  {
    if parts != [] {
      TrimmedIsFixed(parts[0], b);
      TrimEachFixed(parts[1..], b);
    }
  }

  /** The columns of a trimmed line: split at '|', each trimmed, without the
      empty column before a leading pipe. */
  function PipeColumns(trimmed: string): seq<string>
  {
    var all := TrimEach(Split(trimmed, '|'), JsBlanks);
    if StartsWith(trimmed, "|") then all[1..] else all
  }

  /** The fields of at least four columns with a registration. */
  function FromColumns(parts: seq<string>): Option<PhoneLine>
  {
    if |parts| < 4 || parts[0] == "" then None
    else Some(PhoneLine(parts[0], parts[3], if |parts| > 4 then parts[4] else ""))
  }

  /** A line: None for blank, header and separator lines, for lines of
      fewer than four columns and for an empty registration. */
  function ParseLine(line: string): Option<PhoneLine>
  {
    var trimmed := Trim(line);
    if Skipped(trimmed) then None else FromColumns(PipeColumns(trimmed))
  }

  /** Blank, header and separator lines. */
  predicate Skipped(trimmed: string)
  {
    trimmed == "" || StartsWith(trimmed, "Matrícula") || StartsWith(trimmed, "---")
  }

  lemma {:induction false} ParseLineOf(line: string)
    requires Trimmed(line, JsBlanks) && !Skipped(line)
    ensures ParseLine(line) == FromColumns(PipeColumns(line))
  {
    TrimmedIsFixed(line, JsBlanks);
  }

  /** The columns of a line whose '|'-separated parts are already trimmed. */
  lemma {:induction false} PipeColumnsOfParts(line: string, all: seq<string>)
    requires Split(line, '|') == all
    requires forall i | 0 <= i < |all| :: Trimmed(all[i], JsBlanks)
    ensures PipeColumns(line) == if StartsWith(line, "|") then all[1..] else all
  {
    TrimEachFixed(all, JsBlanks);
  }

  /** Trimmed columns joined by '|' split back into the same columns. */
  lemma {:induction false} PipeColumnsOfJoin(parts: seq<string>)
    requires |parts| >= 1 && parts[0] != ""
    requires forall i | 0 <= i < |parts| :: '|' !in parts[i] && Trimmed(parts[i], JsBlanks)
    ensures PipeColumns(Join(parts, "|")) == parts
  {
    var line := Join(parts, "|");
    assert !StartsWith(line, "|") by {
      JoinStarts(parts, "|");
      assert line[0] == parts[0][0];
      assert parts[0][0] in parts[0];
    }
    SplitJoin(parts, '|');
    PipeColumnsOfParts(line, parts);
  }

  /** The same behind the leading pipe of the file's format. */
  lemma {:induction false} PipeColumnsOfPipeJoin(parts: seq<string>)
    requires |parts| >= 1
    requires forall i | 0 <= i < |parts| :: '|' !in parts[i] && Trimmed(parts[i], JsBlanks)
    ensures PipeColumns("|" + Join(parts, "|")) == parts
  {
    var all := [""] + parts;
    var line := "|" + Join(parts, "|");
    assert Join(all, "|") == line;
    forall i | 0 <= i < |all|
      ensures '|' !in all[i] && Trimmed(all[i], JsBlanks)
    {
      if i > 0 {
        assert all[i] == parts[i - 1];
      }
    }
    SplitJoin(all, '|');
    PipeColumnsOfParts(line, all);
    assert StartsWith(line, "|");
    assert all[1..] == parts;
  }

  /** A line that starts with a prefix not starting with w, followed by
      nothing or by a pipe, does not start with a w that has no pipe. */
  lemma {:induction false} NotStartsWith(line: string, first: string, w: string)
    requires StartsWith(line, first) && '|' !in w && !StartsWith(first, w)
    requires |first| < |line| ==> line[|first|] == '|'
    ensures !StartsWith(line, w)
  {
    if |w| <= |first| {
      assert line[..|w|] == first[..|w|];
    } else if |w| <= |line| {
      assert w[|first|] in w;
      assert line[..|w|][|first|] != w[|first|];
    }
  }

  /** A line whose first column is neither a header nor a separator is not
      skipped. */
  lemma {:induction false} JoinNotSkipped(parts: seq<string>)
    requires |parts| >= 2 && parts[0] != ""
    requires !StartsWith(parts[0], "Matrícula") && !StartsWith(parts[0], "---")
    ensures !Skipped(Join(parts, "|"))
  {
    var line := Join(parts, "|");
    JoinStarts(parts, "|");
    assert line[|parts[0]|] == '|';
    NotStartsWith(line, parts[0], "Matrícula");
    NotStartsWith(line, parts[0], "---");
  }

  /** A line with a leading pipe is not skipped, and it is trimmed when what
      follows the pipe is. */
  lemma {:induction false} LeadingPipeKept(joined: string)
    requires joined != [] && Trimmed(joined, JsBlanks)
    ensures !Skipped("|" + joined) && Trimmed("|" + joined, JsBlanks)
  {
    var line := "|" + joined;
    assert line[0] == '|';
    assert "Matrícula"[0] != '|' && "---"[0] != '|';
    assert line[|line| - 1] == joined[|joined| - 1];
  }

  /** A line made of trimmed columns joined by '|' reads back as its first,
      fourth and fifth columns. */
  lemma {:induction false} ParseJoined(parts: seq<string>)
    requires |parts| >= 4 && parts[0] != ""
    requires forall i | 0 <= i < |parts| :: '|' !in parts[i] && Trimmed(parts[i], JsBlanks)
    requires Trimmed(Join(parts, "|"), JsBlanks)
    requires !StartsWith(parts[0], "Matrícula") && !StartsWith(parts[0], "---")
    ensures ParseLine(Join(parts, "|")) == Some(PhoneLine(parts[0], parts[3], if |parts| > 4 then parts[4] else ""))
  {
    JoinNotSkipped(parts);
    ParseLineOf(Join(parts, "|"));
    PipeColumnsOfJoin(parts);
  }

  /** The same with the leading pipe of the file's format. */
  lemma {:induction false} ParseLeadingPipe(parts: seq<string>)
    requires |parts| >= 4 && parts[0] != ""
    requires forall i | 0 <= i < |parts| :: '|' !in parts[i] && Trimmed(parts[i], JsBlanks)
    requires Trimmed(Join(parts, "|"), JsBlanks)
    ensures ParseLine("|" + Join(parts, "|")) == Some(PhoneLine(parts[0], parts[3], if |parts| > 4 then parts[4] else ""))
  {
    JoinStarts(parts, "|");
    LeadingPipeKept(Join(parts, "|"));
    ParseLineOf("|" + Join(parts, "|"));
    PipeColumnsOfPipeJoin(parts);
  }

  // ------------------------------------------------------------ the scan

  /** `phoneMap`: phone to registrations, in insertion order. */
  type PhoneMap = seq<(string, seq<string>)>

  /** `phoneMap.get(phone).push(reg)`, or a new entry at the end. */
  function AddPhone(m: PhoneMap, phone: string, registration: string): PhoneMap
  {
    if m == [] then [(phone, [registration])]
    else if m[0].0 == phone then [(phone, m[0].1 + [registration])] + m[1..]
    else [m[0]] + AddPhone(m[1..], phone, registration)
  }

  predicate Keyed(m: PhoneMap, phone: string)
  {
    m != [] && (m[0].0 == phone || Keyed(m[1..], phone))
  }

  /** Each phone has one entry. */
  predicate KeyedOnce(m: PhoneMap)
  {
    m == [] || (!Keyed(m[1..], m[0].0) && KeyedOnce(m[1..]))
  }

  /** Every registration recorded satisfies p. */
  predicate AllRecorded(m: PhoneMap, p: string -> bool)
  {
    forall i, j | 0 <= i < |m| && 0 <= j < |m[i].1| :: p(m[i].1[j])
  }

  /** Adding keeps one entry per phone, gives the phone an entry, and
      records nothing but the new registration. */
  lemma {:induction false} AddPhoneSpec(m: PhoneMap, phone: string, registration: string, p: string -> bool)
    ensures var r := AddPhone(m, phone, registration);
      && (KeyedOnce(m) ==> KeyedOnce(r))
      && (forall q :: Keyed(r, q) <==> Keyed(m, q) || q == phone)
      && (AllRecorded(m, p) && p(registration) ==> AllRecorded(r, p))
  {
    var r := AddPhone(m, phone, registration);
    if m != [] && m[0].0 != phone {
      AddPhoneSpec(m[1..], phone, registration, p);
      assert r[1..] == AddPhone(m[1..], phone, registration);
      if AllRecorded(m, p) && p(registration) {
        forall i, j | 0 <= i < |r| && 0 <= j < |r[i].1|
          ensures p(r[i].1[j])
        {
          if i > 0 {
            assert r[i] == r[1..][i - 1];
            assert AllRecorded(m[1..], p) by {
              forall i', j' | 0 <= i' < |m[1..]| && 0 <= j' < |m[1..][i'].1|
                ensures p(m[1..][i'].1[j'])
              {
                assert m[1..][i'] == m[i' + 1];
              }
            }
          }
        }
      }
    } else if m != [] {
      assert r[1..] == m[1..];
      if AllRecorded(m, p) && p(registration) {
        forall i, j | 0 <= i < |r| && 0 <= j < |r[i].1|
          ensures p(r[i].1[j])
        {
          if i > 0 {
            assert r[i] == m[i];
          } else if j < |m[0].1| {
            assert r[0].1[j] == m[0].1[j];
          }
        }
      }
    }
  }

  /** What the loop has gathered: the students to save, the count of
      unknown registrations and the phone map. */
  datatype Scan = Scan(updates: seq<Student>, notFound: nat, phones: PhoneMap)

  /** A phone cell that is used: non-empty and valid. */
  predicate Usable(p: string)
  {
    p != "" && ValidPhone(p)
  }

  /** The student with each usable phone of the line in place of the
      stored one. */
  function Updated(student: Student, line: PhoneLine): Student
  {
    student.(motherPhone := if Usable(line.motherPhone) then line.motherPhone else student.motherPhone,
             fatherPhone := if Usable(line.fatherPhone) then line.fatherPhone else student.fatherPhone)
  }

  /** The line brings a usable phone other than the stored one. */
  predicate Changes(student: Student, line: PhoneLine)
  {
    || (Usable(line.motherPhone) && line.motherPhone != student.motherPhone)
    || (Usable(line.fatherPhone) && line.fatherPhone != student.fatherPhone)
  }

  /** One known student's line: the phones recorded, and the student to
      save when a usable phone differs from the stored one. */
  function Found(scan: Scan, student: Student, line: PhoneLine): Scan
  {
    var phones := if Usable(line.motherPhone) then AddPhone(scan.phones, line.motherPhone, line.registration) else scan.phones;
    var phones' := if Usable(line.fatherPhone) then AddPhone(phones, line.fatherPhone, line.registration) else phones;
    Scan(if Changes(student, line) then scan.updates + [Updated(student, line)] else scan.updates,
         scan.notFound, phones')
  }

  /** One line of the loop, given what it parses to. */
  function Step(scan: Scan, index: map<string, Student>, parsed: Option<PhoneLine>): Scan
  {
    match parsed
    case None => scan
    case Some(parsed) =>
      if parsed.registration in index then Found(scan, index[parsed.registration], parsed)
      else scan.(notFound := scan.notFound + 1)
  }

  /** The loop over the lines, each read by `parse` (`ParseLine`). */
  function ScanLines(lines: seq<string>, index: map<string, Student>, parse: string -> Option<PhoneLine>): Scan
  {
    if lines == [] then Scan([], 0, [])
    else Step(ScanLines(lines[..|lines| - 1], index, parse), index, parse(lines[|lines| - 1]))
  }

  /** The line names a registration that is not known. */
  function Unknown(index: map<string, Student>, parse: string -> Option<PhoneLine>): string -> bool
  {
    (line: string) => parse(line).Some? && parse(line).value.registration !in index
  }

  /** `update` is `student` with only its phones changed, at least one of
      them to a usable phone. */
  predicate PhonesOnly(update: Student, student: Student)
  {
    && update == student.(motherPhone := update.motherPhone, fatherPhone := update.fatherPhone)
    && (update.motherPhone != student.motherPhone || update.fatherPhone != student.fatherPhone)
    && (update.motherPhone == student.motherPhone || ValidPhone(update.motherPhone))
    && (update.fatherPhone == student.fatherPhone || ValidPhone(update.fatherPhone))
  }

  /** Each student to save is a known student with only its phones changed. */
  predicate KnownUpdates(updates: seq<Student>, index: map<string, Student>)
  {
    forall k | 0 <= k < |updates| :: exists key | key in index :: PhonesOnly(updates[k], index[key])
  }

  /** The invariant of the scan: each student to save is a known student
      with only its phones changed, to valid phones; each phone has one
      entry; every recorded registration is known. */
  predicate ScanInvariant(scan: Scan, index: map<string, Student>)
  {
    && KnownUpdates(scan.updates, index)
    && KeyedOnce(scan.phones)
    && AllRecorded(scan.phones, (r: string) => r in index)
  }

  lemma {:induction false} FoundKeeps(scan: Scan, index: map<string, Student>, parsed: PhoneLine)
    requires ScanInvariant(scan, index) && parsed.registration in index
    ensures ScanInvariant(Found(scan, index[parsed.registration], parsed), index)
  {
    var student := index[parsed.registration];
    var known := (r: string) => r in index;
    if Usable(parsed.motherPhone) {
      AddPhoneSpec(scan.phones, parsed.motherPhone, parsed.registration, known);
      var phones := AddPhone(scan.phones, parsed.motherPhone, parsed.registration);
      if Usable(parsed.fatherPhone) {
        AddPhoneSpec(phones, parsed.fatherPhone, parsed.registration, known);
      }
    } else if Usable(parsed.fatherPhone) {
      AddPhoneSpec(scan.phones, parsed.fatherPhone, parsed.registration, known);
    }
    var next := Found(scan, student, parsed);
    forall k | 0 <= k < |next.updates|
      ensures exists key | key in index :: PhonesOnly(next.updates[k], index[key])
    {
      if k == |scan.updates| {
        assert PhonesOnly(next.updates[k], index[parsed.registration]);
      } else {
        assert next.updates[k] == scan.updates[k];
      }
    }
  }

  /** Over all lines: the invariant holds, and every line naming an unknown
      registration is counted once. */
  lemma {:induction false} ScanSound(lines: seq<string>, index: map<string, Student>, parse: string -> Option<PhoneLine>)
    ensures ScanInvariant(ScanLines(lines, index, parse), index)
    ensures ScanLines(lines, index, parse).notFound == CountWhere(lines, Unknown(index, parse))
  {
    if lines != [] {
      var n := |lines| - 1;
      ScanSound(lines[..n], index, parse);
      var scan := ScanLines(lines[..n], index, parse);
      match parse(lines[n])
      case None =>
      case Some(parsed) =>
        if parsed.registration in index {
          FoundKeeps(scan, index, parsed);
        } else {
        }
    }
  }

  /** `phoneMap` lists the registration under the phone. */
  predicate Recorded(m: PhoneMap, phone: string, registration: string)
  {
    exists i | 0 <= i < |m| :: m[i].0 == phone && registration in m[i].1
  }

  /** Adding records the pair and keeps every pair recorded before. */
  lemma {:induction false} AddPhoneRecords(m: PhoneMap, phone: string, registration: string)
    ensures Recorded(AddPhone(m, phone, registration), phone, registration)
    ensures forall q, x | Recorded(m, q, x) :: Recorded(AddPhone(m, phone, registration), q, x)
  {
    var r := AddPhone(m, phone, registration);
    if m == [] {
      assert r[0] == (phone, [registration]);
    } else if m[0].0 == phone {
      assert registration in r[0].1;
      forall q, x | Recorded(m, q, x)
        ensures Recorded(r, q, x)
      {
        var i :| 0 <= i < |m| && m[i].0 == q && x in m[i].1;
        if i == 0 {
          assert x in r[0].1;
        } else {
          assert r[i] == m[i];
        }
      }
    } else {
      var rest := AddPhone(m[1..], phone, registration);
      AddPhoneRecords(m[1..], phone, registration);
      assert r == [m[0]] + rest;
      var j :| 0 <= j < |rest| && rest[j].0 == phone && registration in rest[j].1;
      assert r[j + 1] == rest[j];
      forall q, x | Recorded(m, q, x)
        ensures Recorded(r, q, x)
      {
        var i :| 0 <= i < |m| && m[i].0 == q && x in m[i].1;
        if i == 0 {
          assert r[0] == m[0];
        } else {
          assert m[1..][i - 1] == m[i];
          assert Recorded(m[1..], q, x);
          var j' :| 0 <= j' < |rest| && rest[j'].0 == q && x in rest[j'].1;
          assert r[j' + 1] == rest[j'];
        }
      }
    }
  }

  /** What a known student's line leaves in the scan: each usable phone
      recorded under the line's registration, and the updated student
      queued when a phone changes. */
  predicate Applied(scan: Scan, student: Student, line: PhoneLine)
  {
    && (Usable(line.motherPhone) ==> Recorded(scan.phones, line.motherPhone, line.registration))
    && (Usable(line.fatherPhone) ==> Recorded(scan.phones, line.fatherPhone, line.registration))
    && (Changes(student, line) ==> Updated(student, line) in scan.updates)
  }

  /** A later scan keeps every recorded pair and every queued student. */
  ghost predicate Grows(scan: Scan, next: Scan)
  {
    && (forall q, x | Recorded(scan.phones, q, x) :: Recorded(next.phones, q, x))
    && (forall u | u in scan.updates :: u in next.updates)
  }

  lemma {:induction false} FoundApplies(scan: Scan, student: Student, line: PhoneLine)
    ensures Applied(Found(scan, student, line), student, line)
    ensures Grows(scan, Found(scan, student, line))
  {
    var phones := if Usable(line.motherPhone) then AddPhone(scan.phones, line.motherPhone, line.registration) else scan.phones;
    if Usable(line.motherPhone) {
      AddPhoneRecords(scan.phones, line.motherPhone, line.registration);
    }
    if Usable(line.fatherPhone) {
      AddPhoneRecords(phones, line.fatherPhone, line.registration);
    }
  }

  lemma {:induction false} StepGrows(scan: Scan, index: map<string, Student>, parsed: Option<PhoneLine>)
    ensures Grows(scan, Step(scan, index, parsed))
  {
    if parsed.Some? && parsed.value.registration in index {
      FoundApplies(scan, index[parsed.value.registration], parsed.value);
    }
  }

  /** A line naming a known registration. */
  predicate KnownLine(line: string, index: map<string, Student>, parse: string -> Option<PhoneLine>)
  {
    parse(line).Some? && parse(line).value.registration in index
  }

  /** Every line naming a known registration has its usable phones recorded
      under it and, when a phone changes, its updated student queued. */
  lemma {:induction false} ScanApplied(lines: seq<string>, index: map<string, Student>, parse: string -> Option<PhoneLine>)
    ensures var scan := ScanLines(lines, index, parse);
      forall k | 0 <= k < |lines| && KnownLine(lines[k], index, parse) ::
        Applied(scan, index[parse(lines[k]).value.registration], parse(lines[k]).value)
  {
    if lines != [] {
      var n := |lines| - 1;
      ScanApplied(lines[..n], index, parse);
      var before := ScanLines(lines[..n], index, parse);
      var scan := ScanLines(lines, index, parse);
      StepGrows(before, index, parse(lines[n]));
      forall k | 0 <= k < |lines| && KnownLine(lines[k], index, parse)
        ensures Applied(scan, index[parse(lines[k]).value.registration], parse(lines[k]).value)
      {
        var line := parse(lines[k]).value;
        var student := index[line.registration];
        if k < n {
          assert lines[..n][k] == lines[k];
          assert Applied(before, student, line);
        } else {
          FoundApplies(before, student, line);
        }
      }
    }
  }

  /** Over all lines: the scan invariant holds; notFound counts exactly the
      lines naming an unknown registration; and every line naming a known
      registration has its usable phones recorded under that registration
      and, when such a phone differs from the stored one, the student with
      the line's phones queued for saving. */
  lemma {:induction false} ScanSpec(lines: seq<string>, index: map<string, Student>, parse: string -> Option<PhoneLine>)
    ensures ScanInvariant(ScanLines(lines, index, parse), index)
    ensures ScanLines(lines, index, parse).notFound == CountWhere(lines, Unknown(index, parse))
    ensures var scan := ScanLines(lines, index, parse);
      forall k | 0 <= k < |lines| && KnownLine(lines[k], index, parse) ::
        var line := parse(lines[k]).value;
        && (Usable(line.motherPhone) ==> Recorded(scan.phones, line.motherPhone, line.registration))
        && (Usable(line.fatherPhone) ==> Recorded(scan.phones, line.fatherPhone, line.registration))
        && (Changes(index[line.registration], line) ==> Updated(index[line.registration], line) in scan.updates)
  {
    ScanSound(lines, index, parse);
    ScanApplied(lines, index, parse);
  }

  // ----------------------------------------------------------- the report

  /** An entry shared by more than one registration. */
  function Shared(): ((string, seq<string>)) -> bool
  {
    (e: (string, seq<string>)) => |Dedupe(e.1)| > 1
  }

  function ReportLine(phone: string, registrations: seq<string>): string
  {
    "Número " + phone + " compartilhado por: " + Join(registrations, ", ")
  }

  /** `duplicateReport`. */
  function Report(m: PhoneMap): seq<string>
  {
    if m == [] then []
    else
      var n := |m| - 1;
      Report(m[..n]) + (if Shared()(m[n]) then [ReportLine(m[n].0, Dedupe(m[n].1))] else [])
  }

  /** The line names the entry's phone and its distinct registrations, of
      which there are at least two. */
  ghost predicate ReportsEntry(line: string, e: (string, seq<string>))
  {
    && line == ReportLine(e.0, Dedupe(e.1))
    && |Dedupe(e.1)| > 1 && Distinct(Dedupe(e.1))
    && (forall x :: x in Dedupe(e.1) <==> x in e.1)
  }

  /** The line reports one of the entries of the map. */
  ghost predicate ReportsSome(line: string, m: PhoneMap)
  {
    exists i | 0 <= i < |m| :: ReportsEntry(line, m[i])
  }

  /** One report line per shared phone, each naming a phone of the map and
      distinct registrations recorded for it. */
  lemma {:induction false} ReportSound(m: PhoneMap)
    ensures |Report(m)| == CountWhere(m, Shared())
    ensures forall k | 0 <= k < |Report(m)| :: ReportsSome(Report(m)[k], m)
  {
    if m != [] {
      var n := |m| - 1;
      ReportSound(m[..n]);
      var r := Report(m);
      var rest := Report(m[..n]);
      assert r == rest + (if Shared()(m[n]) then [ReportLine(m[n].0, Dedupe(m[n].1))] else []);
      forall k | 0 <= k < |r|
        ensures ReportsSome(r[k], m)
      {
        if k < |rest| {
          assert r[k] == rest[k];
          ReportsSomePrefix(rest[k], m, n);
        } else {
          DedupeSpec(m[n].1);
          assert ReportsEntry(r[k], m[n]);
        }
      }
    }
  }

  /** Every shared phone of the map has its line in the report. */
  lemma {:induction false} ReportComplete(m: PhoneMap)
    ensures forall i | 0 <= i < |m| && Shared()(m[i]) :: ReportLine(m[i].0, Dedupe(m[i].1)) in Report(m)
  {
    if m != [] {
      var n := |m| - 1;
      ReportComplete(m[..n]);
      var rest := Report(m[..n]);
      assert Report(m) == rest + (if Shared()(m[n]) then [ReportLine(m[n].0, Dedupe(m[n].1))] else []);
      var tail := if Shared()(m[n]) then [ReportLine(m[n].0, Dedupe(m[n].1))] else [];
      forall i | 0 <= i < |m| && Shared()(m[i])
        ensures ReportLine(m[i].0, Dedupe(m[i].1)) in Report(m)
      {
        var line := ReportLine(m[i].0, Dedupe(m[i].1));
        if i < n {
          assert m[..n][i] == m[i];
          assert line in rest;
        } else {
          assert line in tail;
        }
      }
    }
  }

  /** The report has one line per phone with two or more distinct
      registrations: every such phone has its line, and each line names a
      phone of the map and the distinct registrations recorded for it. */
  lemma {:induction false} ReportSpec(m: PhoneMap)
    ensures |Report(m)| == CountWhere(m, Shared())
    ensures forall k | 0 <= k < |Report(m)| :: ReportsSome(Report(m)[k], m)
    ensures forall i | 0 <= i < |m| && Shared()(m[i]) :: ReportLine(m[i].0, Dedupe(m[i].1)) in Report(m)
  {
    ReportSound(m);
    ReportComplete(m);
  }

  lemma {:induction false} ReportsSomePrefix(line: string, m: PhoneMap, n: nat)
    requires n <= |m| && ReportsSome(line, m[..n])
    ensures ReportsSome(line, m)
  {
    var i :| 0 <= i < n && ReportsEntry(line, m[..n][i]);
    assert m[..n][i] == m[i];
  }

  /** The alert shows the first ten report lines, and says so when there are more. */
  function Shown(report: seq<string>): (r: (seq<string>, bool))
    ensures |r.0| == if |report| > 10 then 10 else |report|
    ensures r.0 == report[..|r.0|]
    ensures r.1 <==> |report| > |r.0|
  {
    (if |report| > 10 then report[..10] else report, |report| > 10)
  }

  // ------------------------------------------------------- the handler

  /** The loop over the lines. */
  method ScanAll(lines: seq<string>, studentMap: map<string, Student>, parse: string -> Option<PhoneLine>)
    returns (studentsToUpdate: seq<Student>, notFoundCount: nat, phoneMap: PhoneMap)
    ensures Scan(studentsToUpdate, notFoundCount, phoneMap) == ScanLines(lines, studentMap, parse)
  {
    var scan := Scan([], 0, []);
    var i := 0;
    while i < |lines|
      invariant 0 <= i <= |lines|
      invariant scan == ScanLines(lines[..i], studentMap, parse)
    {
      assert lines[..i + 1][..i] == lines[..i];
      scan := Step(scan, studentMap, parse(lines[i]));
      i := i + 1;
    }
    assert lines[..i] == lines;
    studentsToUpdate, notFoundCount, phoneMap := scan.updates, scan.notFound, scan.phones;
  }

  /** The handler's three loops: the scan of the lines, the saves, and the
      report over the phone map. */
  method ImportPhones(students: seq<Student>, text: string)
    returns (studentsToUpdate: seq<Student>, updatedCount: nat, notFoundCount: nat, duplicateReport: seq<string>)
    ensures var scan := ScanLines(Split(text, '\n'), TrimmedIndex(students), ParseLine);
      && studentsToUpdate == scan.updates && notFoundCount == scan.notFound
      && updatedCount == |studentsToUpdate|
      && duplicateReport == Report(scan.phones)
  {
    var lines := Split(text, '\n');
    var studentMap := TrimmedIndex(students);
    var phoneMap;
    studentsToUpdate, notFoundCount, phoneMap := ScanAll(lines, studentMap, ParseLine);

    updatedCount := 0;
    var k := 0;
    while k < |studentsToUpdate|
      invariant 0 <= k <= |studentsToUpdate| && updatedCount == k
    {
      updatedCount := updatedCount + 1;
      k := k + 1;
    }

    duplicateReport := BuildReport(phoneMap);
  }

  /** `phoneMap.forEach`: a line for each phone of several registrations. */
  method BuildReport(phoneMap: PhoneMap) returns (duplicateReport: seq<string>)
    ensures duplicateReport == Report(phoneMap)
  {
    duplicateReport := [];
    var j := 0;
    while j < |phoneMap|
      invariant 0 <= j <= |phoneMap|
      invariant duplicateReport == Report(phoneMap[..j])
    {
      assert phoneMap[..j + 1][..j] == phoneMap[..j];
      var unique := Dedupe(phoneMap[j].1);
      if |unique| > 1 {
        duplicateReport := duplicateReport + [ReportLine(phoneMap[j].0, unique)];
      }
      j := j + 1;
    }
    assert phoneMap[..j] == phoneMap;
  }

  // ---------------------------------------------------- the local state

  /** `studentsToUpdate.find(u => u.id === id)`: the first update for the id. */
  function FirstUpdate(updates: seq<Student>, id: string): Option<Student>
  {
    if updates == [] then None
    else if updates[0].id == id then Some(updates[0])
    else FirstUpdate(updates[1..], id)
  }

  /** The last update for the id. */
  function LastUpdate(updates: seq<Student>, id: string): Option<Student>
  {
    if updates == [] then None
    else if updates[|updates| - 1].id == id then Some(updates[|updates| - 1])
    else LastUpdate(updates[..|updates| - 1], id)
  }

  /** The local list as written: each student is replaced by the first
      update with its id. */
  function LocalAsWritten(students: seq<Student>, updates: seq<Student>): seq<Student>
  {
    seq(|students|, i requires 0 <= i < |students| => FirstUpdate(updates, students[i].id).GetOr(students[i]))
  }

  /** The local list with the last update for each id: what the saves leave. */
  function LocalUpdated(students: seq<Student>, updates: seq<Student>): seq<Student>
  {
    seq(|students|, i requires 0 <= i < |students| => LastUpdate(updates, students[i].id).GetOr(students[i]))
  }

  /** One save on the server: the stored student with that id becomes it. */
  function Save(stored: seq<Student>, update: Student): seq<Student>
  {
    seq(|stored|, i requires 0 <= i < |stored| => if stored[i].id == update.id then update else stored[i])
  }

  /** The saves, in order. */
  function SaveAll(stored: seq<Student>, updates: seq<Student>): seq<Student>
  {
    if updates == [] then stored else Save(SaveAll(stored, updates[..|updates| - 1]), updates[|updates| - 1])
  }

  /** The corrected local update is what the server holds after the saves. */
  lemma {:induction false} LocalUpdatedIsSaved(students: seq<Student>, updates: seq<Student>)
    ensures LocalUpdated(students, updates) == SaveAll(students, updates)
  {
    if updates != [] {
      var n := |updates| - 1;
      LocalUpdatedIsSaved(students, updates[..n]);
      var before := SaveAll(students, updates[..n]);
      forall i | 0 <= i < |students|
        ensures LocalUpdated(students, updates)[i] == Save(before, updates[n])[i]
      {
        assert before[i] == LocalUpdated(students, updates[..n])[i];
        if updates[n].id != students[i].id {
          assert LastUpdate(updates[..n], students[i].id).Some? ==> LastUpdate(updates[..n], students[i].id).value.id == students[i].id
            by { LastUpdateId(updates[..n], students[i].id); }
        } else {
          LastUpdateId(updates[..n], students[i].id);
        }
      }
    }
  }

  lemma {:induction false} LastUpdateId(updates: seq<Student>, id: string)
    ensures LastUpdate(updates, id).Some? ==> LastUpdate(updates, id).value.id == id
  {
    if updates != [] {
      LastUpdateId(updates[..|updates| - 1], id);
    }
  }

  /** Two updates of one student: the list as written keeps the first, the
      server the second. */
  lemma {:induction false} FirstUpdateWins(s: Student)
    ensures var first := s.(motherPhone := "11111111");
      var second := s.(motherPhone := "22222222");
      && LocalAsWritten([s], [first, second]) == [first]
      && SaveAll([s], [first, second]) == [second]
      && LocalAsWritten([s], [first, second]) != SaveAll([s], [first, second])
  {
    var first := s.(motherPhone := "11111111");
    var second := s.(motherPhone := "22222222");
    assert [first, second][..1] == [first];
    assert SaveAll([s], [first]) == Save([s], first);
    assert Save([s], first) == [first];
    assert Save([first], second) == [second];
    assert first != second by {
      assert first.motherPhone[0] != second.motherPhone[0];
    }
  }

  /** Two lines for one registration, each with a new usable mother's
      phone, produce two updates of the same student. */
  lemma {:induction false} TwoLinesTwoUpdates(index: map<string, Student>, line1: PhoneLine, line2: PhoneLine, scan: Scan)
    requires line1.registration == line2.registration && line1.registration in index
    requires Usable(line1.motherPhone) && line1.motherPhone != index[line1.registration].motherPhone
    requires Usable(line2.motherPhone) && line2.motherPhone != index[line1.registration].motherPhone
    ensures var after := Step(Step(scan, index, Some(line1)), index, Some(line2));
      && |after.updates| == |scan.updates| + 2
      && after.updates[|scan.updates|].id == after.updates[|scan.updates| + 1].id
      && after.updates[|scan.updates|].motherPhone == line1.motherPhone
      && after.updates[|scan.updates| + 1].motherPhone == line2.motherPhone
  {
  }
}
