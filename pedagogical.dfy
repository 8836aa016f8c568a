/**
 * The weekly teacher record form of the pedagogical view
 * (PedagogicalView.tsx): the class-hours bookkeeping with the missed-class
 * list, the dynamic checklist, opening and saving the form, and the list's
 * filter and row cells.
 *
 * `Record<string, boolean>` is a map; the display order of its entries is
 * not modelled. An absent `missedClasses` is the empty list. The random id
 * and today's date of a new record are parameters.
 */
module Pedagogical {
  import opened Wrappers
  import opened Text
  import opened Folds

  datatype MissedClass = MissedClass(date: string, time: string, hours: int, reason: string)

  datatype ClassHours = ClassHours(planned: int, given: int)

  datatype PedagogicalRecord = PedagogicalRecord(
    id: string,
    teacherName: string,
    weekStart: string,
    checklist: map<string, bool>,
    classHours: ClassHours,
    missedClasses: seq<MissedClass>,
    observation: string)

  const AgendaItem: string := "Agenda Atualizada"
  const ExamsItem: string := "Provas Entregues"
  const DiariesItem: string := "Diários em Dia"

  /** The three items a new form starts with, all unticked. */
  const DefaultChecklist: map<string, bool> := map[AgendaItem := false, ExamsItem := false, DiariesItem := false]

  /** The missed-class inputs after they are cleared: one hour, nothing else. */
  const BlankMissedClass: MissedClass := MissedClass("", "", 1, "")

  /** `Math.max(0, x)`. */
  function AtLeastZero(x: int): int
  {
    if x > 0 then x else 0
  }

  // ------------------------------------------------------- missed classes

  /** The form after a missed class is added: its hours come off the given
      hours, never below zero, and the entry goes at the end. */
  function WithMissedClass(record: PedagogicalRecord, missed: MissedClass): PedagogicalRecord
  {
    record.(classHours := record.classHours.(given := AtLeastZero(record.classHours.given - missed.hours)),
            missedClasses := record.missedClasses + [missed])
  }

  /** Adding a missed class deducts its hours from the given hours, clamped
      at zero, leaves the planned hours and the earlier entries alone and
      appends exactly the new entry. */
  lemma {:induction false} AddMissedClassSpec(record: PedagogicalRecord, missed: MissedClass)
    ensures var r := WithMissedClass(record, missed);
      && r.classHours.planned == record.classHours.planned
      && r.classHours.given >= 0
      && (r.classHours.given == 0 <==> record.classHours.given <= missed.hours)
      && (r.classHours.given > 0 ==> r.classHours.given + missed.hours == record.classHours.given)
      && (missed.hours >= 0 && record.classHours.given >= 0 ==> r.classHours.given <= record.classHours.given)
      && |r.missedClasses| == |record.missedClasses| + 1
      && r.missedClasses[..|record.missedClasses|] == record.missedClasses
      && r.missedClasses[|record.missedClasses|] == missed
      && r == record.(classHours := r.classHours, missedClasses := r.missedClasses)
  {
    var r := WithMissedClass(record, missed);
    assert r.missedClasses[..|record.missedClasses|] == record.missedClasses;
  }

  /** `filter((_, i) => i !== index)`. */
  function WithoutIndex<T>(s: seq<T>, index: int): seq<T>
  {
    if s == [] then []
    else WithoutIndex(s[..|s| - 1], index) + (if |s| - 1 != index then [s[|s| - 1]] else [])
  }

  /** The filter deletes the entry at the index when there is one, and
      nothing otherwise. */
  lemma {:induction false} WithoutIndexSpec<T>(s: seq<T>, index: int)
    ensures 0 <= index < |s| ==> WithoutIndex(s, index) == s[..index] + s[index + 1..]
    ensures !(0 <= index < |s|) ==> WithoutIndex(s, index) == s
  {
    if s != [] {
      var n := |s| - 1;
      WithoutIndexSpec(s[..n], index);
      if 0 <= index < n {
        assert s[..n][..index] == s[..index];
        assert s[..n][index + 1..] + [s[n]] == s[index + 1..];
      } else if index == n {
        assert s[..n] == s[..index] + s[index + 1..];
      } else {
        assert s[..n] + [s[n]] == s;
      }
    }
  }

  /** The form after the entry at the index is removed. */
  function WithoutMissedClass(record: PedagogicalRecord, index: int): PedagogicalRecord
  {
    record.(missedClasses := WithoutIndex(record.missedClasses, index))
  }

  /** Removing deletes exactly the entry at the index, keeps the others in
      order, and gives no hours back. */
  lemma {:induction false} RemoveMissedClassSpec(record: PedagogicalRecord, index: int)
    ensures var r := WithoutMissedClass(record, index);
      && r.classHours == record.classHours
      && (0 <= index < |record.missedClasses| ==>
            && |r.missedClasses| == |record.missedClasses| - 1
            && r.missedClasses == record.missedClasses[..index] + record.missedClasses[index + 1..])
      && (!(0 <= index < |record.missedClasses|) ==> r == record)
  {
    WithoutIndexSpec(record.missedClasses, index);
  }

  /** Removing a missed class right after adding it restores the list but
      not the hours that were deducted. */
  lemma {:induction false} AddThenRemoveMissedClass(record: PedagogicalRecord, missed: MissedClass)
    ensures var r := WithoutMissedClass(WithMissedClass(record, missed), |record.missedClasses|);
      && r.missedClasses == record.missedClasses
      && r.classHours == record.classHours.(given := AtLeastZero(record.classHours.given - missed.hours))
  {
    var added := WithMissedClass(record, missed);
    AddMissedClassSpec(record, missed);
    RemoveMissedClassSpec(added, |record.missedClasses|);
  }

  // ------------------------------------------------------------ checklist

  /** The form after the new item is added: a blank name adds nothing. */
  function WithChecklistItem(record: PedagogicalRecord, item: string): Option<PedagogicalRecord>
  {
    if Trim(item) != "" then Some(record.(checklist := record.checklist[item := false])) else None
  }

  function WithoutChecklistItem(record: PedagogicalRecord, key: string): PedagogicalRecord
  {
    record.(checklist := record.checklist - {key})
  }

  /** Adding an item with a non-blank name sets exactly that key, as typed,
      to unticked and changes nothing else; a blank name is refused. */
  lemma {:induction false} AddChecklistItemSpec(record: PedagogicalRecord, item: string)
    ensures WithChecklistItem(record, item).Some? <==> Trim(item) != ""
    ensures WithChecklistItem(record, item).Some? ==>
      var r := WithChecklistItem(record, item).value;
      && r.checklist.Keys == record.checklist.Keys + {item}
      && r.checklist[item] == false
      && (forall k | k in record.checklist && k != item :: r.checklist[k] == record.checklist[k])
      && r == record.(checklist := r.checklist)
  {
  }

  /** Removing deletes only its key and changes nothing else. */
  lemma {:induction false} RemoveChecklistItemSpec(record: PedagogicalRecord, key: string)
    ensures var r := WithoutChecklistItem(record, key);
      && r.checklist.Keys == record.checklist.Keys - {key}
      && (forall k | k in r.checklist :: r.checklist[k] == record.checklist[k])
      && r == record.(checklist := r.checklist)
  {
  }

  /** Adding a new item and removing it gives the checklist back. */
  lemma {:induction false} AddThenRemoveChecklistItem(record: PedagogicalRecord, item: string)
    requires item !in record.checklist && Trim(item) != ""
    ensures WithChecklistItem(record, item).Some?
    ensures WithoutChecklistItem(WithChecklistItem(record, item).value, item) == record
  {
    assert record.checklist[item := false] - {item} == record.checklist;
  }

  // ------------------------------------------------------ opening, saving

  /** The form the modal opens with: an existing record, with the three
      default items when its checklist is empty, or a new record. */
  function Opened(record: Option<PedagogicalRecord>, freshId: string, today: string): PedagogicalRecord
  {
    match record
    case Some(r) => r.(checklist := if |r.checklist| == 0 then DefaultChecklist else r.checklist)
    case None => PedagogicalRecord(freshId, "", today, DefaultChecklist, ClassHours(0, 0), [], "")
  }

  /** An opened record keeps everything but an empty checklist, which gets
      the three default items unticked; a new record has the fresh id, this
      week's date, no hours and no missed classes. Either way the checklist
      has at least one item. */
  lemma {:induction false} OpenedSpec(record: Option<PedagogicalRecord>, freshId: string, today: string)
    ensures var f := Opened(record, freshId, today);
      && |f.checklist| > 0
      && (record.Some? && |record.value.checklist| > 0 ==> f == record.value)
      && (record.Some? ==> f == record.value.(checklist := f.checklist))
      && (record.None? || |record.value.checklist| == 0 ==>
            f.checklist.Keys == {AgendaItem, ExamsItem, DiariesItem} && forall k | k in f.checklist :: !f.checklist[k])
      && (record.None? ==>
            f.id == freshId && f.weekStart == today && f.teacherName == ""
            && f.classHours == ClassHours(0, 0) && f.missedClasses == [])
  {
    assert AgendaItem in DefaultChecklist;
  }

  /** Saving needs a teacher name and a week. */
  predicate CanSave(record: PedagogicalRecord)
  {
    record.teacherName != "" && record.weekStart != ""
  }

  // -------------------------------------------------------------- the form

  /** The modal's state: the record being edited and the inputs for a new
      checklist item and a new missed class. */
  class PedagogicalForm {
    var formData: PedagogicalRecord
    var newChecklistItem: string
    var newMissedClass: MissedClass
    var isModalOpen: bool

    constructor()
      ensures formData == PedagogicalRecord("", "", "", DefaultChecklist, ClassHours(0, 0), [], "")
      ensures newChecklistItem == "" && newMissedClass == BlankMissedClass && !isModalOpen
    {
      formData := PedagogicalRecord("", "", "", DefaultChecklist, ClassHours(0, 0), [], "");
      newChecklistItem := "";
      newMissedClass := BlankMissedClass;
      isModalOpen := false;
    }

    /** `handleOpenModal`. */
    method OpenModal(record: Option<PedagogicalRecord>, freshId: string, today: string)
      modifies this
      ensures formData == Opened(record, freshId, today) && isModalOpen
      ensures newChecklistItem == old(newChecklistItem) && newMissedClass == old(newMissedClass)
    {
      formData := Opened(record, freshId, today);
      isModalOpen := true;
    }

    /** `handleAddMissedClass`: without a date and a time nothing changes and
        the alert is shown. */
    method AddMissedClass() returns (alerted: bool)
      modifies this
      ensures alerted <==> old(newMissedClass).date == "" || old(newMissedClass).time == ""
      ensures !alerted ==> formData == WithMissedClass(old(formData), old(newMissedClass)) && newMissedClass == BlankMissedClass
      ensures alerted ==> formData == old(formData) && newMissedClass == old(newMissedClass)
      ensures newChecklistItem == old(newChecklistItem) && isModalOpen == old(isModalOpen)
    {
      if newMissedClass.date != "" && newMissedClass.time != "" {
        formData := WithMissedClass(formData, newMissedClass);
        newMissedClass := BlankMissedClass;
        alerted := false;
      } else {
        alerted := true;
      }
    }

    /** `handleRemoveMissedClass`. */
    method RemoveMissedClass(index: int)
      modifies this
      ensures formData == WithoutMissedClass(old(formData), index)
      ensures newChecklistItem == old(newChecklistItem) && newMissedClass == old(newMissedClass)
      ensures isModalOpen == old(isModalOpen)
    {
      formData := WithoutMissedClass(formData, index);
    }

    /** `handleAddChecklistItem`: a blank name changes nothing. */
    method AddChecklistItem()
      modifies this
      ensures var added := WithChecklistItem(old(formData), old(newChecklistItem));
        && (added.Some? ==> formData == added.value && newChecklistItem == "")
        && (added.None? ==> formData == old(formData) && newChecklistItem == old(newChecklistItem))
      ensures newMissedClass == old(newMissedClass) && isModalOpen == old(isModalOpen)
    {
      var added := WithChecklistItem(formData, newChecklistItem);
      if added.Some? {
        formData := added.value;
        newChecklistItem := "";
      }
    }

    /** `handleRemoveChecklistItem`. */
    method RemoveChecklistItem(key: string)
      modifies this
      ensures formData == WithoutChecklistItem(old(formData), key)
      ensures newChecklistItem == old(newChecklistItem) && newMissedClass == old(newMissedClass)
      ensures isModalOpen == old(isModalOpen)
    {
      formData := WithoutChecklistItem(formData, key);
    }

    /** `handleSave`: the record handed to the save callback, none when the
        teacher name or the week is missing; a saved form closes. */
    method Save() returns (saved: Option<PedagogicalRecord>)
      modifies this
      ensures saved.Some? <==> CanSave(old(formData))
      ensures saved.Some? ==> saved.value == old(formData) && !isModalOpen
      ensures saved.None? ==> isModalOpen == old(isModalOpen)
      ensures formData == old(formData) && newChecklistItem == old(newChecklistItem)
      ensures newMissedClass == old(newMissedClass)
    {
      if formData.teacherName == "" || formData.weekStart == "" {
        saved := None;
      } else {
        saved := Some(formData);
        isModalOpen := false;
      }
    }
  }

  // ------------------------------------------------------------- the list

  /** The teacher name contains the search case-insensitively, and the week
      is the filtered one when a week filter is set. */
  predicate Listed(record: PedagogicalRecord, searchTerm: string, filterWeek: string)
  {
    Contains(ToLower(record.teacherName), ToLower(searchTerm))
    && (filterWeek == "" || record.weekStart == filterWeek)
  }

  function ListedBy(searchTerm: string, filterWeek: string): PedagogicalRecord -> bool
  {
    (record: PedagogicalRecord) => Listed(record, searchTerm, filterWeek)
  }

  /** `filteredRecords`. */
  function FilteredRecords(records: seq<PedagogicalRecord>, searchTerm: string, filterWeek: string): seq<PedagogicalRecord>
  {
    Filter(records, ListedBy(searchTerm, filterWeek))
  }

  /** The list holds exactly the matching records, in their order; with no
      search and no week filter it is every record. */
  lemma {:induction false} FilteredRecordsSpec(records: seq<PedagogicalRecord>, searchTerm: string, filterWeek: string)
    ensures forall r :: r in FilteredRecords(records, searchTerm, filterWeek) <==> r in records && Listed(r, searchTerm, filterWeek)
    ensures SubsequenceOf(FilteredRecords(records, searchTerm, filterWeek), records)
    ensures searchTerm == "" && filterWeek == "" ==> FilteredRecords(records, searchTerm, filterWeek) == records
  {
    FilterSubsequence(records, ListedBy(searchTerm, filterWeek));
    if searchTerm == "" && filterWeek == "" {
      forall i | 0 <= i < |records|
        ensures ListedBy(searchTerm, filterWeek)(records[i])
      {
        assert StartsWith(ToLower(records[i].teacherName), ToLower(searchTerm));
      }
      FilterAll(records, ListedBy(searchTerm, filterWeek));
    }
  }

  /** The hours cell: "given / planned", red when fewer hours were given
      than planned; and the missed-class badge, shown only for a record
      with missed classes. */
  datatype Row = Row(hours: string, hoursRed: bool, badge: Option<string>)

  function RowOf(record: PedagogicalRecord): Row
  {
    var n := |record.missedClasses|;
    Row(IntToString(record.classHours.given) + " / " + IntToString(record.classHours.planned),
        record.classHours.given < record.classHours.planned,
        if n > 0 then Some(NatToString(n) + " falta(s)") else None)
  }

  /** The hours cell reads back as the given hours; the badge appears
      exactly when there are missed classes and starts with their count. */
  lemma {:induction false} RowSpec(record: PedagogicalRecord)
    ensures var row := RowOf(record);
      && ParseIntJs(row.hours) == Some(record.classHours.given)
      && (row.badge.Some? <==> |record.missedClasses| > 0)
      && (row.badge.Some? ==> StartsWith(row.badge.value, NatToString(|record.missedClasses|)))
      && (row.hoursRed <==> record.classHours.given < record.classHours.planned)
  {
    HoursCellReads(record.classHours.given, IntToString(record.classHours.planned));
    if |record.missedClasses| > 0 {
      BadgeStarts(NatToString(|record.missedClasses|));
    }
  }

  lemma {:induction false} HoursCellReads(given: int, planned: string)
    ensures ParseIntJs(IntToString(given) + " / " + planned) == Some(given)
  {
    ParseIntJsOfIntToStringThen(given, " / " + planned);
    assert IntToString(given) + " / " + planned == IntToString(given) + (" / " + planned);
  }

  lemma {:induction false} BadgeStarts(count: string)
    ensures StartsWith(count + " falta(s)", count)
  {
    assert (count + " falta(s)")[..|count|] == count;
  }
}
