/**
 * The fixed catalogues of the school: the grade groups, the flat grade list,
 * the grade codes of the secretariat's CSV export, the shifts and the
 * academic periods.
 */
module Constants {
  import opened Folds

  const Infantil: seq<string> := ["INF II", "INF III", "INF IV", "INF V"]
  const FundamentalI: seq<string> :=
    ["1º ANO FUND I", "2º ANO FUND I", "3º ANO FUND I", "4º ANO FUND I", "5º ANO FUND I"]
  const FundamentalII: seq<string> :=
    ["6º ANO FUND II", "7º ANO FUND II", "8º ANO FUND II", "9º ANO FUND II"]
  /** The third year is written without the ordinal sign in the catalogue. */
  const EnsinoMedio: seq<string> := ["1º ANO MÉDIO", "2º ANO MÉDIO", "3 ANO MÉDIO"]

  /** The grade groups in declaration order: (group name, its grades). */
  const GradeGroups: seq<(string, seq<string>)> :=
    [("EDUCAÇÃO INFANTIL", Infantil), ("FUNDAMENTAL I", FundamentalI),
     ("FUNDAMENTAL II", FundamentalII), ("ENSINO MÉDIO", EnsinoMedio)]

  const GradesList: seq<string> := Infantil + FundamentalI + FundamentalII + EnsinoMedio

  /** Grade code of the CSV export to grade name. */
  const ImportGradeMap: map<string, string> :=
    map["2" := "INF II", "3" := "INF III", "4" := "INF IV", "5" := "INF V",
        "11" := "1º ANO FUND I", "12" := "2º ANO FUND I", "13" := "3º ANO FUND I",
        "14" := "4º ANO FUND I", "15" := "5º ANO FUND I",
        "16" := "6º ANO FUND II", "17" := "7º ANO FUND II", "18" := "8º ANO FUND II",
        "19" := "9º ANO FUND II",
        "21" := "1º ANO MÉDIO", "22" := "2º ANO MÉDIO", "23" := "3 ANO MÉDIO"]

  const ShiftsList: seq<string> := ["Manhã", "Tarde"]

  const AcademicPeriods: seq<string> :=
    ["1ª Etp", "1ª Bi", "2ª Etp", "2ª Bi", "3ª Etp", "3ª Bi", "4ª Etp", "4ª Bi"]

  /** The grades of all groups, concatenated in group order. */
  function Flatten(groups: seq<(string, seq<string>)>): (r: seq<string>)
    ensures forall i, g :: 0 <= i < |groups| && g in groups[i].1 ==> g in r
  {
    if groups == [] then [] else groups[0].1 + Flatten(groups[1..])
  }

  /** The grades of the named group, if there is such a group. */
  function GroupGrades(name: string): (r: seq<string>)
    ensures forall g :: g in r ==> g in GradesList
  {
    if name == GradeGroups[0].0 then Infantil
    else if name == GradeGroups[1].0 then FundamentalI
    else if name == GradeGroups[2].0 then FundamentalII
    else if name == GradeGroups[3].0 then EnsinoMedio
    else []
  }

  /** The flat list is the groups concatenated in declaration order: 16 distinct grades. */
  lemma {:induction false} GradesListIsGroupsInOrder()
    ensures GradesList == Flatten(GradeGroups)
    ensures |GradesList| == 16
    ensures Distinct(GradesList)
  {
    assert Flatten(GradeGroups[3..]) == EnsinoMedio + Flatten([]);
    assert Flatten(GradeGroups[2..]) == FundamentalII + Flatten(GradeGroups[3..]);
    assert Flatten(GradeGroups[1..]) == FundamentalI + Flatten(GradeGroups[2..]);
  }

  /** No grade belongs to two groups. */
  lemma {:induction false} GroupsDisjoint()
    ensures forall i, j, g :: 0 <= i < j < |GradeGroups| && g in GradeGroups[i].1 ==> g !in GradeGroups[j].1
  {
    GradesListIsGroupsInOrder();
  }

  /** The grade codes of the import map, in the order of the grades they name. */
  const ImportCodes: seq<string> :=
    ["2", "3", "4", "5", "11", "12", "13", "14", "15", "16", "17", "18", "19", "21", "22", "23"]

  /** The i-th code names the i-th grade of the flat list. */
  lemma {:induction false} ImportGradeMapIndexed()
    ensures |ImportCodes| == |GradesList|
    ensures forall i :: 0 <= i < |ImportCodes| ==> ImportCodes[i] in ImportGradeMap && ImportGradeMap[ImportCodes[i]] == GradesList[i]
  {
  }

  /** The import map has no code outside the list. */
  lemma {:induction false} ImportGradeMapCodes()
    ensures forall c :: c in ImportGradeMap ==> c in ImportCodes
  {
  }

  /** The import map sends distinct codes to distinct grades and covers the whole list. */
  lemma {:induction false} ImportGradeMapIsBijection()
    ensures forall c :: c in ImportGradeMap ==> ImportGradeMap[c] in GradesList
    ensures forall c, d :: c in ImportGradeMap && d in ImportGradeMap && c != d ==> ImportGradeMap[c] != ImportGradeMap[d]
    ensures forall g :: g in GradesList ==> exists c :: c in ImportGradeMap && ImportGradeMap[c] == g
  {
    GradesListIsGroupsInOrder();
    ImportGradeMapIndexed();
    ImportGradeMapCodes();
    forall c, d | c in ImportGradeMap && d in ImportGradeMap && c != d
      ensures ImportGradeMap[c] != ImportGradeMap[d]
    {
      var i :| 0 <= i < |ImportCodes| && ImportCodes[i] == c;
      var j :| 0 <= j < |ImportCodes| && ImportCodes[j] == d;
      assert i != j;
    }
    forall g | g in GradesList
      ensures exists c :: c in ImportGradeMap && ImportGradeMap[c] == g
    {
      var i :| 0 <= i < |GradesList| && GradesList[i] == g;
      assert ImportCodes[i] in ImportGradeMap;
    }
  }

  /** Two shifts; eight periods alternating stage ("Etp") and bimester ("Bi"). */
  lemma {:induction false} ShiftsAndPeriods()
    ensures ShiftsList == ["Manhã", "Tarde"]
    ensures |AcademicPeriods| == 8 && Distinct(AcademicPeriods)
    ensures forall i :: 0 <= i < 8 ==>
      (if i % 2 == 0 then EndsWithEtp(AcademicPeriods[i]) else EndsWithBi(AcademicPeriods[i]))
  {
  }

  predicate EndsWithEtp(p: string)
  {
    |p| >= 3 && p[|p| - 3..] == "Etp"
  }

  predicate EndsWithBi(p: string)
  {
    |p| >= 2 && p[|p| - 2..] == "Bi"
  }
}
