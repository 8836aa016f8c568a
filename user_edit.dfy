/**
 * The grade permissions of the user form (UserEditView.tsx): a checkbox per
 * grade group that grants or withdraws the whole group, and a checkbox per
 * grade.
 */
module UserEdit {
  import opened Folds
  import opened Constants

  /** The grades after each grade of the group that is missing is pushed,
      in the group's order. */
  function AddMissing(current: seq<string>, group: seq<string>): seq<string>
  {
    if group == [] then current
    else
      var r := AddMissing(current, group[..|group| - 1]);
      if group[|group| - 1] in r then r else r + [group[|group| - 1]]
  }

  /** Pushing keeps the earlier grades in front and adds only grades of the
      group, so that afterwards every grade of the group is allowed, and no
      grade is allowed twice unless it already was. */
  lemma {:induction false} AddMissingSpec(current: seq<string>, group: seq<string>)
    ensures var r := AddMissing(current, group);
      && |r| >= |current| && r[..|current|] == current
      && (forall i | |current| <= i < |r| :: r[i] in group)
      && (forall x :: x in r <==> x in current || x in group)
      && (Distinct(current) ==> Distinct(r))
  {
    if group != [] {
      var n := |group| - 1;
      AddMissingSpec(current, group[..n]);
      var r := AddMissing(current, group[..n]);
      if group[n] !in r {
        var r' := r + [group[n]];
        assert r'[..|current|] == r[..|current|];
        if Distinct(current) {
          DistinctSnoc(r, group[n]);
        }
      }
      forall x
        ensures x in group <==> x in group[..n] || x == group[n]
      {
        if x in group {
          var i :| 0 <= i < |group| && group[i] == x;
          if i < n {
            assert group[..n][i] == x;
          }
        }
      }
    }
  }

  function OutsideGroup(group: seq<string>): string -> bool
  {
    (g: string) => g !in group
  }

  /** Unchecking a group: every grade of the group goes. */
  function WithoutGroup(current: seq<string>, group: seq<string>): seq<string>
  {
    Filter(current, OutsideGroup(group))
  }

  /** Unchecking removes the group's grades and keeps every other grade in
      its order. */
  lemma {:induction false} WithoutGroupSpec(current: seq<string>, group: seq<string>)
    ensures forall x :: x in WithoutGroup(current, group) <==> x in current && x !in group
    ensures SubsequenceOf(WithoutGroup(current, group), current)
  {
    FilterSubsequence(current, OutsideGroup(group));
  }

  /** `toggleGradeGroupAccess`: the allowed grades after the group's box is
      checked or unchecked. */
  method ToggleGroupAccess(allowedGrades: seq<string>, groupName: string, isChecked: bool)
    returns (currentGrades: seq<string>)
    requires exists i | 0 <= i < |GradeGroups| :: GradeGroups[i].0 == groupName
    ensures isChecked ==> currentGrades == AddMissing(allowedGrades, GroupGrades(groupName))
    ensures !isChecked ==> currentGrades == WithoutGroup(allowedGrades, GroupGrades(groupName))
  {
    var gradesInGroup := GroupGrades(groupName);
    currentGrades := allowedGrades;
    if isChecked {
      var i := 0;
      while i < |gradesInGroup|
        invariant 0 <= i <= |gradesInGroup|
        invariant currentGrades == AddMissing(allowedGrades, gradesInGroup[..i])
      {
        assert gradesInGroup[..i + 1][..i] == gradesInGroup[..i];
        if gradesInGroup[i] !in currentGrades {
          currentGrades := currentGrades + [gradesInGroup[i]];
        }
        i := i + 1;
      }
      assert gradesInGroup[..i] == gradesInGroup;
    } else {
      currentGrades := WithoutGroup(currentGrades, gradesInGroup);
    }
  }

  /** The group box is checked when every grade of the group is allowed. */
  predicate GroupChecked(allowedGrades: seq<string>, group: seq<string>)
  {
    forall i | 0 <= i < |group| :: group[i] in allowedGrades
  }

  /** A filter that every added element fails ignores them. */
  lemma {:induction false} FilterIgnoresRejected(a: seq<string>, b: seq<string>, p: string -> bool)
    requires forall i | 0 <= i < |b| :: !p(b[i])
    ensures Filter(a + b, p) == Filter(a, p)
  {
    if b != [] {
      var n := |b| - 1;
      assert (a + b)[..|a + b| - 1] == a + b[..n];
      FilterIgnoresRejected(a, b[..n], p);
    } else {
      assert a + b == a;
    }
  }

  /** Checking a group checks its box; unchecking a non-empty group clears
      it; and checking then unchecking a group leaves the grades outside the
      group as unchecking alone does. */
  lemma {:induction false} GroupToggleSpec(current: seq<string>, group: seq<string>)
    ensures GroupChecked(AddMissing(current, group), group)
    ensures group != [] ==> !GroupChecked(WithoutGroup(current, group), group)
    ensures WithoutGroup(AddMissing(current, group), group) == WithoutGroup(current, group)
  {
    AddMissingSpec(current, group);
    WithoutGroupSpec(current, group);
    if group != [] {
      assert group[0] !in WithoutGroup(current, group);
    }
    var r := AddMissing(current, group);
    var extra := r[|current|..];
    assert r == current + extra;
    forall i | 0 <= i < |extra|
      ensures !OutsideGroup(group)(extra[i])
    {
      assert extra[i] == r[|current| + i];
    }
    FilterIgnoresRejected(current, extra, OutsideGroup(group));
  }

  /** One grade's box: checking appends the grade, unchecking removes every
      occurrence of it. */
  function ToggleGrade(current: seq<string>, grade: string, checked: bool): seq<string>
  {
    if checked then current + [grade] else Filter(current, (g: string) => g != grade)
  }

  /** After checking the grade is allowed and nothing else changed; after
      unchecking it is not allowed and every other grade stays. */
  lemma {:induction false} ToggleGradeSpec(current: seq<string>, grade: string)
    ensures var r := ToggleGrade(current, grade, true);
      r[..|current|] == current && |r| == |current| + 1 && grade in r
    ensures forall x :: x in ToggleGrade(current, grade, false) <==> x in current && x != grade
  {
    var r := current + [grade];
    assert r[..|current|] == current;
    assert r[|current|] == grade;
  }
}
