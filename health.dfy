/**
 * The health documents screen (HealthView.tsx): the document list filtered by
 * a name search and by the grade, shift and type filters.
 */
module Health {
  import opened Domain
  import opened Folds
  import opened Text
  import opened Exams

  /** The two document types. */
  const PhysicalEducation: string := "Atestado Educação Física"
  const MedicalReport: string := "Laudo Médico"

  datatype HealthDocument = HealthDocument(
    id: string,
    studentId: string,
    docType: string,
    description: string,
    dateIssued: string,
    fileName: string)

  /** `student.name.toLowerCase().includes(searchTerm.toLowerCase())`. */
  predicate NameMatches(name: string, searchTerm: string)
  {
    Contains(ToLower(name), ToLower(searchTerm))
  }

  /** The test of `filteredDocs` for one document. */
  predicate DocListed(students: seq<Student>, searchTerm: string, gradeFilter: string, shiftFilter: string,
                      typeFilter: string, doc: HealthDocument)
  {
    var k := StudentIndex(students, doc.studentId);
    && k >= 0
    && NameMatches(students[k].name, searchTerm)
    && Accepts(gradeFilter, students[k].grade)
    && Accepts(shiftFilter, students[k].shift)
    && Accepts(typeFilter, doc.docType)
  }

  /** `filteredDocs`. */
  function FilteredDocs(documents: seq<HealthDocument>, students: seq<Student>, searchTerm: string,
                        gradeFilter: string, shiftFilter: string, typeFilter: string): seq<HealthDocument>
  {
    Filter(documents, (d: HealthDocument) => DocListed(students, searchTerm, gradeFilter, shiftFilter, typeFilter, d))
  }

  /** Every string contains the empty one. */
  lemma {:induction false} ContainsEmpty(s: string)
    ensures Contains(s, "")
  {
    assert StartsWith(s, "");
  }

  /** A name contains itself, whatever its case. */
  lemma {:induction false} ContainsItself(s: string)
    ensures Contains(s, s)
  {
    assert s[..|s|] == s;
  }

  /** The list keeps the documents' order; a document is listed iff its
      student exists and passes the search and the three filters; a document
      without a student never is; an empty search and empty filters list every
      document of a known student; and the search for a student's own name
      finds them. */
  lemma {:induction false} FilteredDocsSpec(documents: seq<HealthDocument>, students: seq<Student>, searchTerm: string,
                         gradeFilter: string, shiftFilter: string, typeFilter: string)
    ensures var r := FilteredDocs(documents, students, searchTerm, gradeFilter, shiftFilter, typeFilter);
      && SubsequenceOf(r, documents)
      && (forall d :: d in r <==> (d in documents && DocListed(students, searchTerm, gradeFilter, shiftFilter, typeFilter, d)))
      && (forall d | d in documents && (forall k | 0 <= k < |students| :: students[k].id != d.studentId) :: d !in r)
      && (searchTerm == "" && gradeFilter == "" && shiftFilter == "" && typeFilter == "" ==>
            forall d :: d in r <==> (d in documents && StudentIndex(students, d.studentId) >= 0))
  {
    var p := (d: HealthDocument) => DocListed(students, searchTerm, gradeFilter, shiftFilter, typeFilter, d);
    FilterSubsequence(documents, p);
    if searchTerm == "" {
      forall d | d in documents && StudentIndex(students, d.studentId) >= 0
        ensures NameMatches(students[StudentIndex(students, d.studentId)].name, searchTerm)
      {
        ContainsEmpty(ToLower(students[StudentIndex(students, d.studentId)].name));
      }
    }
  }

  /** Searching for the name of the student a document belongs to, in any
      case, keeps that document when the other filters are empty. */
  lemma {:induction false} SearchByOwnName(documents: seq<HealthDocument>, students: seq<Student>, d: HealthDocument)
    requires d in documents
    requires StudentIndex(students, d.studentId) >= 0
    ensures var name := students[StudentIndex(students, d.studentId)].name;
      d in FilteredDocs(documents, students, name, "", "", "")
  {
    ContainsItself(ToLower(students[StudentIndex(students, d.studentId)].name));
  }
}
