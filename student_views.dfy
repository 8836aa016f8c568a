/**
 * What the student detail page (StudentDetailView.tsx) and the student list
 * (StudentListView.tsx) derive from a student and the attendance list: the
 * status counts and the attendance frequency, the five most recent records,
 * the status and book/certificate badges, the WhatsApp link, and the list's
 * filter-type selector.
 *
 * The frequency is kept as the rational attended/total; `toFixed(1)` is not
 * modelled. `localeCompare` on ISO dates is the code-point order LexLe.
 */
module StudentViews {
  import opened Text
  import opened Domain
  import opened Folds
  import opened Sorting

  // ------------------------------------------------- counts and frequency

  /** `studentAttendance`: the student's records, in list order. */
  function StudentRecords(attendance: seq<AttendanceRecord>, studentId: string): (r: seq<AttendanceRecord>)
  {
    Filter(attendance, (a: AttendanceRecord) => a.studentId == studentId)
  }

  function HasStatus(status: string): AttendanceRecord -> bool
  {
    (a: AttendanceRecord) => a.status == status
  }

  /** A status other than the three the app writes. */
  function OtherStatus(): AttendanceRecord -> bool
  {
    (a: AttendanceRecord) => a.status != Present && a.status != Absent && a.status != Excused
  }

  /** Every record is counted once: as Absent, Present, Excused or other. */
  lemma {:induction false} StatusCountsSum(records: seq<AttendanceRecord>)
    ensures CountWhere(records, HasStatus(Absent)) + CountWhere(records, HasStatus(Present))
          + CountWhere(records, HasStatus(Excused)) + CountWhere(records, OtherStatus()) == |records|
  {
    if records != [] {
      StatusCountsSum(records[..|records| - 1]);
    }
  }

  /** When every record has one of the three statuses, the three counts the
      page shows add up to the total. */
  lemma {:induction false} CountsAddUp(records: seq<AttendanceRecord>)
    requires forall a | a in records :: a.status == Present || a.status == Absent || a.status == Excused
    ensures CountWhere(records, HasStatus(Absent)) + CountWhere(records, HasStatus(Present))
          + CountWhere(records, HasStatus(Excused)) == |records|
  {
    StatusCountsSum(records);
    CountPositive(records, OtherStatus());
    forall i | 0 <= i < |records|
      ensures !OtherStatus()(records[i])
    {
      assert records[i] in records;
    }
  }

  /** The frequency: '100' without records, else attended out of total. */
  datatype Frequency = NoRecords | Rate(attended: nat, total: nat)

  function FrequencyOf(records: seq<AttendanceRecord>): Frequency
  {
    if |records| > 0
    then Rate(CountWhere(records, HasStatus(Present)) + CountWhere(records, HasStatus(Excused)), |records|)
    else NoRecords
  }

  /** The rate is at most one hundred percent, and exactly that when no
      record is an absence or carries another status. */
  lemma {:induction false} FrequencySpec(records: seq<AttendanceRecord>)
    ensures var f := FrequencyOf(records);
      && (f.NoRecords? <==> records == [])
      && (f.Rate? ==> f.total == |records| > 0 && f.attended <= f.total)
      && (f.Rate? ==> (f.attended == f.total <==> !Occurs(records, HasStatus(Absent)) && !Occurs(records, OtherStatus())))
  {
    StatusCountsSum(records);
    CountPositive(records, HasStatus(Absent));
    CountPositive(records, OtherStatus());
  }

  // ------------------------------------------------------------- history

  /** `b.date.localeCompare(a.date) <= 0`: a is no older than b. */
  function NewestFirst(): (AttendanceRecord, AttendanceRecord) -> bool
  {
    (a: AttendanceRecord, b: AttendanceRecord) => LexLe(b.date, a.date)
  }

  lemma {:induction false} NewestFirstIsOrder()
    ensures Total(NewestFirst()) && Transitive(NewestFirst())
  {
    forall a: AttendanceRecord, b: AttendanceRecord
      ensures NewestFirst()(a, b) || NewestFirst()(b, a)
    {
      LexTotal(a.date, b.date);
    }
    forall a: AttendanceRecord, b: AttendanceRecord, c: AttendanceRecord | NewestFirst()(a, b) && NewestFirst()(b, c)
      ensures NewestFirst()(a, c)
    {
      LexTransitive(c.date, b.date, a.date);
    }
  }

  function Min(a: nat, b: nat): nat
  {
    if a <= b then a else b
  }

  /** The history table: the records sorted newest first, cut to five. */
  function RecentHistory(records: seq<AttendanceRecord>): seq<AttendanceRecord>
  {
    var sorted := SortBy(records, NewestFirst());
    sorted[..Min(5, |sorted|)]
  }

  /** The table shows min(5, n) of the student's records in non-increasing
      date order, and no record left out is newer than one shown. */
  lemma {:induction false} RecentHistorySpec(records: seq<AttendanceRecord>)
    ensures var r := RecentHistory(records);
      && |r| == Min(5, |records|)
      && multiset(r) <= multiset(records)
      && (forall i, j | 0 <= i < j < |r| :: LexLe(r[j].date, r[i].date))
      && (forall x, y | x in multiset(records) - multiset(r) && y in r :: LexLe(x.date, y.date))
  {
    var sorted := SortBy(records, NewestFirst());
    var r := sorted[..Min(5, |sorted|)];
    NewestFirstIsOrder();
    SortBySorted(records, NewestFirst());
    SortedIsPairwise(sorted, NewestFirst());
    PrefixBeforeRest(sorted, Min(5, |sorted|), NewestFirst());
    forall i, j | 0 <= i < j < |r|
      ensures LexLe(r[j].date, r[i].date)
    {
      assert NewestFirst()(sorted[i], sorted[j]);
    }
    forall x, y | x in multiset(records) - multiset(r) && y in r
      ensures LexLe(x.date, y.date)
    {
      assert NewestFirst()(y, x);
    }
  }

  /** The history card: its rows, the full-history link and the empty message. */
  datatype HistoryCard = HistoryCard(rows: seq<AttendanceRecord>, fullHistoryLink: bool, emptyMessage: bool)

  function HistoryCardOf(records: seq<AttendanceRecord>): HistoryCard
  {
    HistoryCard(RecentHistory(records), |records| > 5, |records| == 0)
  }

  /** The link appears exactly when some record is not in the table, and the
      empty message exactly when the table has no row. */
  lemma {:induction false} HistoryCardSpec(records: seq<AttendanceRecord>)
    ensures var c := HistoryCardOf(records);
      && (c.fullHistoryLink <==> |c.rows| < |records|)
      && (c.emptyMessage <==> c.rows == [])
  {
    RecentHistorySpec(records);
  }

  // --------------------------------------------------------------- badges

  datatype Badge = Badge(color: string, text: string)

  /** The status column of the history table. */
  function StatusBadge(status: string): Badge
  {
    if status == Present then Badge("green", "Presente")
    else if status == Absent then Badge("red", "Falta")
    else Badge("yellow", "Justificado")
  }

  /** Present and Absent have labels of their own; every other status,
      Excused included, reads Justificado. */
  lemma {:induction false} StatusBadgeSpec(status: string)
    ensures StatusBadge(status).text == "Justificado" <==> status != Present && status != Absent
    ensures StatusBadge(Present).text != StatusBadge(Absent).text
  {
  }

  /** The book badge of the student list; an unknown status is slate with
      its own text. */
  function BookBadge(status: string): Badge
  {
    if status == "Comprou" then Badge("green", "Comprou")
    else if status == "Nao Comprou" then Badge("red", "Não Comprou")
    else if status == "Copia" then Badge("blue", "Cópia")
    else if status == "Livro Antigo" then Badge("yellow", "Livro Antigo")
    else Badge("slate", status)
  }

  /** The physical-education certificate badge. */
  function PeBadge(status: string): Badge
  {
    if status == "Aprovado" then Badge("green", "Aprovado")
    else if status == "Reprovado" then Badge("red", "Reprovado")
    else if status == "Em Análise" then Badge("yellow", "Em Análise")
    else Badge("slate", status)
  }

  /** Outside the known statuses the badge is slate with the raw status; the
      four book statuses get four different colours, none of them slate; a
      certificate badge always reads the status itself. */
  lemma {:induction false} BadgeSpec(status: string)
    ensures status !in ["Comprou", "Nao Comprou", "Copia", "Livro Antigo"] ==> BookBadge(status) == Badge("slate", status)
    ensures status in ["Comprou", "Nao Comprou", "Copia", "Livro Antigo"] ==> BookBadge(status).color != "slate"
    ensures status !in ["Aprovado", "Reprovado", "Em Análise", "Pendente"] ==> PeBadge(status) == Badge("slate", status)
    ensures PeBadge(status).text == status
  {
  }

  // ------------------------------------------------------------ WhatsApp

  const WhatsAppPrefix: string := "https://wa.me/55"

  /** `formatWhatsAppLink`, the same in both views. */
  function WhatsAppLink(phone: string): string
  {
    if phone == "" then "#"
    else
      var cleaned := DigitsOnly(phone);
      if |cleaned| < 10 then "#" else WhatsAppPrefix + cleaned
  }

  /** A link is made exactly when the phone has at least ten digits, and it
      is the Brazilian prefix followed by those digits, in order. */
  lemma {:induction false} WhatsAppSpec(phone: string)
    ensures WhatsAppLink(phone) != "#" <==> |DigitsOnly(phone)| >= 10
    ensures WhatsAppLink(phone) != "#" ==>
      && StartsWith(WhatsAppLink(phone), WhatsAppPrefix)
      && WhatsAppLink(phone)[|WhatsAppPrefix|..] == DigitsOnly(phone)
      && AllDigits(WhatsAppLink(phone)[|WhatsAppPrefix|..])
  {
    var link := WhatsAppLink(phone);
    if |DigitsOnly(phone)| >= 10 {
      assert link[..|WhatsAppPrefix|] == WhatsAppPrefix;
      assert link != "#" by {
        assert |link| > 1;
      }
    }
  }

  // ------------------------------------------------ the filter selector

  /** The filter type the student list opens with: the first of the book,
      certificate and turnstile filters that is set, or none. */
  function InitialFilterType(filterBookStatus: string, filterPEStatus: string, filterTurnstile: string): string
  {
    if filterBookStatus != "" then "book"
    else if filterPEStatus != "" then "pe"
    else if filterTurnstile != "" then "turnstile"
    else ""
  }

  /** The selector names a filter that is set, and a filter is set only if
      the selector names one. */
  lemma {:induction false} InitialFilterTypeSpec(filterBookStatus: string, filterPEStatus: string, filterTurnstile: string)
    ensures var t := InitialFilterType(filterBookStatus, filterPEStatus, filterTurnstile);
      && (t == "" <==> filterBookStatus == "" && filterPEStatus == "" && filterTurnstile == "")
      && (t == "book" ==> filterBookStatus != "")
      && (t == "pe" ==> filterPEStatus != "" && filterBookStatus == "")
      && (t == "turnstile" ==> filterTurnstile != "" && filterBookStatus == "" && filterPEStatus == "")
  {
  }

  /** The selector's state and the three filters it governs. */
  class FilterSelector {
    var activeFilterType: string
    var filterBookStatus: string
    var filterPEStatus: string
    var filterTurnstile: string

    /** The list after its first effect has run. */
    constructor(filterBookStatus: string, filterPEStatus: string, filterTurnstile: string)
      ensures activeFilterType == InitialFilterType(filterBookStatus, filterPEStatus, filterTurnstile)
      ensures this.filterBookStatus == filterBookStatus && this.filterPEStatus == filterPEStatus
      ensures this.filterTurnstile == filterTurnstile
    {
      this.filterBookStatus := filterBookStatus;
      this.filterPEStatus := filterPEStatus;
      this.filterTurnstile := filterTurnstile;
      activeFilterType := InitialFilterType(filterBookStatus, filterPEStatus, filterTurnstile);
    }

    /** `handleFilterTypeChange`: the three filters are cleared together. */
    method ChangeFilterType(filterType: string)
      modifies this
      ensures activeFilterType == filterType
      ensures filterBookStatus == "" && filterPEStatus == "" && filterTurnstile == ""
    {
      activeFilterType := filterType;
      filterBookStatus := "";
      filterPEStatus := "";
      filterTurnstile := "";
    }
  }
}
