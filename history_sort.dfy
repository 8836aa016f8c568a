/**
 * The one derived-value check of the browser smoke scripts
 * (verification/verify_history_sort.py): the date cells of the student's
 * attendance history, written DD/MM/YYYY, must be in non-increasing order.
 * Only cells of the test year 2024 are read; the verdict is SUCCESS, WARNING
 * or FAIL, and a cell that is not a date raises, which sends the script to
 * its error path.
 */
module HistorySort {
  import opened Wrappers
  import opened Text
  import opened Folds

  /** What Python's `str.strip()` and `int()` treat as white space. */
  const PyBlanks: set<char> :=
    {'\t', '\n', '\U{B}', '\U{C}', '\r', '\U{1C}', '\U{1D}', '\U{1E}', '\U{1F}', ' ',
     '\U{85}', '\U{A0}', '\U{1680}', '\U{2000}', '\U{2001}', '\U{2002}', '\U{2003}',
     '\U{2004}', '\U{2005}', '\U{2006}', '\U{2007}', '\U{2008}', '\U{2009}', '\U{200A}',
     '\U{2028}', '\U{2029}', '\U{202F}', '\U{205F}', '\U{3000}'}

  /** Python `int(s)` on a string: surrounding white space, an optional sign
      and ASCII digits; anything else raises (None). */
  function PyInt(s: string): Option<int>
  {
    var t := TrimWith(s, PyBlanks);
    if t == [] then None
    else if t[0] == '-' || t[0] == '+' then
      if CtypeDigit(t[1..]) then
        Some(if t[0] == '-' then -(DigitsValue(t[1..]) as int) else DigitsValue(t[1..]) as int)
      else None
    else if CtypeDigit(t) then Some(DigitsValue(t) as int)
    else None
  }

  /** A `datetime.date`; dates compare as (year, month, day). */
  datatype Date = Date(year: int, month: int, day: int)

  predicate LeapYear(y: int)
  {
    y % 4 == 0 && (y % 100 != 0 || y % 400 == 0)
  }

  function DaysInMonth(y: int, m: int): int
    requires 1 <= m <= 12
  {
    if m == 2 then (if LeapYear(y) then 29 else 28)
    else if m == 4 || m == 6 || m == 9 || m == 11 then 30
    else 31
  }

  /** What `datetime.date(y, m, d)` accepts: years MINYEAR = 1 to MAXYEAR =
      9999, months 1 to 12, and a day of that month. */
  predicate ValidDate(d: Date)
  {
    1 <= d.year <= 9999 && 1 <= d.month <= 12 && 1 <= d.day <= DaysInMonth(d.year, d.month)
  }

  predicate DateLe(a: Date, b: Date)
  {
    a.year < b.year || (a.year == b.year && (a.month < b.month || (a.month == b.month && a.day <= b.day)))
  }

  /** One cell: `parts = d.split('/')` and
      `datetime.date(int(parts[2]), int(parts[1]), int(parts[0]))`; fewer than
      three parts, a part that is not an integer or a date that does not
      exist raise (None). Parts after the third are not read. */
  function ParseCell(cell: string): Option<Date>
  {
    var parts := Split(cell, '/');
    if |parts| < 3 then None
    else
      var y, m, d := PyInt(parts[2]), PyInt(parts[1]), PyInt(parts[0]);
      if y.None? || m.None? || d.None? then None
      else if ValidDate(Date(y.value, m.value, d.value)) then Some(Date(y.value, m.value, d.value))
      else None
  }

  // --------------------------------------------------- reading a cell back

  /** A two-digit day or month, zero-padded. */
  function TwoDigits(n: nat): string
  {
    PadStart(NatToString(n), 2, '0')
  }

  /** A date written as the history table shows it, DD/MM/YYYY. */
  function FormatCell(d: Date): string
    requires ValidDate(d)
  {
    TwoDigits(d.day) + "/" + TwoDigits(d.month) + "/" + NatToString(d.year)
  }

  lemma {:induction false} DigitNotBlank(c: char)
    requires IsDigit(c)
    ensures c !in PyBlanks && c != '-' && c != '+' && c != '/'
  {
  }

  /** `int()` reads a string of digits as its value. */
  lemma {:induction false} PyIntOfDigits(t: string)
    requires CtypeDigit(t)
    ensures PyInt(t) == Some(DigitsValue(t) as int)
  {
    DigitNotBlank(t[0]);
    DigitNotBlank(t[|t| - 1]);
    assert TrimLeft(t, PyBlanks) == t;
    assert TrimRight(t, PyBlanks) == t;
  }

  lemma {:induction false} TwoDigitsValue(n: nat)
    ensures CtypeDigit(TwoDigits(n)) && DigitsValue(TwoDigits(n)) == n
  {
    var s := NatToString(n);
    DigitsValueOfNatToString(n);
    if |s| < 2 {
      assert |s| == 1;
      assert TwoDigits(n) == PadStart("0" + s, 2, '0') == "0" + s;
      DigitsValueLeadingZero(s);
    }
  }

  lemma {:induction false} NoSlash(t: string)
    requires AllDigits(t)
    ensures '/' !in t
  {
    forall i | 0 <= i < |t|
      ensures t[i] != '/'
    {
      DigitNotBlank(t[i]);
    }
  }

  /** Three digit strings joined by slashes split back into the three. */
  lemma {:induction false} SplitThree(d: string, m: string, y: string)
    requires AllDigits(d) && AllDigits(m) && AllDigits(y)
    ensures Split(d + "/" + m + "/" + y, '/') == [d, m, y]
  {
    NoSlash(d);
    NoSlash(m);
    NoSlash(y);
    SplitWithoutSeparator(y, '/');
    SplitAtFirst(m, '/', y);
    assert m + "/" + y == m + ['/'] + y;
    SplitAtFirst(d, '/', m + "/" + y);
    assert d + "/" + m + "/" + y == d + ['/'] + (m + "/" + y);
  }

  /** A date the history table shows reads back as that date. */
  lemma {:induction false} ParseFormatted(d: Date)
    requires ValidDate(d)
    ensures ParseCell(FormatCell(d)) == Some(d)
  {
    var dd, mm, yy := TwoDigits(d.day), TwoDigits(d.month), NatToString(d.year);
    TwoDigitsValue(d.day);
    TwoDigitsValue(d.month);
    DigitsValueOfNatToString(d.year);
    SplitThree(dd, mm, yy);
    PyIntOfDigits(dd);
    PyIntOfDigits(mm);
    PyIntOfDigits(yy);
  }

  /** The dates `parse` makes of the cells, or None as soon as one raises. */
  function ParseAll(cells: seq<string>, parse: string -> Option<Date>): Option<seq<Date>>
  {
    if cells == [] then Some([])
    else
      var init := ParseAll(cells[..|cells| - 1], parse);
      var last := parse(cells[|cells| - 1]);
      if init.None? || last.None? then None else Some(init.value + [last.value])
  }

  /** All cells parse exactly when each does, and then the i-th date is the
      i-th cell's. */
  lemma {:induction false} ParseAllSpec(cells: seq<string>, parse: string -> Option<Date>)
    ensures ParseAll(cells, parse).Some? <==> forall i | 0 <= i < |cells| :: parse(cells[i]).Some?
    ensures ParseAll(cells, parse).Some? ==>
      |ParseAll(cells, parse).value| == |cells| &&
      forall i | 0 <= i < |cells| :: ParseAll(cells, parse).value[i] == parse(cells[i]).value
  {
    if cells != [] {
      var n := |cells| - 1;
      ParseAllSpec(cells[..n], parse);
      assert forall i | 0 <= i < n :: cells[..n][i] == cells[i];
    }
  }

  /** The `for d in test_dates` loop appending to `parsed_dates`. */
  method ParseDates(testDates: seq<string>) returns (parsedDates: Option<seq<Date>>)
    ensures parsedDates == ParseAll(testDates, ParseCell)
  {
    var parsed: seq<Date> := [];
    var i := 0;
    while i < |testDates|
      invariant 0 <= i <= |testDates|
      invariant ParseAll(testDates[..i], ParseCell) == Some(parsed)
    {
      assert testDates[..i + 1][..i] == testDates[..i];
      var date := ParseCell(testDates[i]);
      if date.None? {
        assert ParseAll(testDates[..i + 1], ParseCell) == None;
        ParseAllPrefix(testDates, i + 1, ParseCell);
        return None;
      }
      parsed := parsed + [date.value];
      i := i + 1;
    }
    assert testDates[..i] == testDates;
    return Some(parsed);
  }

  /** Once a prefix raises, the whole list does. */
  lemma {:induction false} ParseAllPrefix(cells: seq<string>, k: nat, parse: string -> Option<Date>)
    requires k <= |cells| && ParseAll(cells[..k], parse) == None
    ensures ParseAll(cells, parse) == None
    decreases |cells| - k
  {
    if k < |cells| {
      assert cells[..k + 1][..k] == cells[..k];
      ParseAllPrefix(cells, k + 1, parse);
    } else {
      assert cells[..k] == cells;
    }
  }

  /** `is_sorted`: every adjacent pair is non-increasing. */
  predicate IsSorted(dates: seq<Date>)
  {
    forall i | 0 <= i < |dates| - 1 :: DateLe(dates[i + 1], dates[i])
  }

  /** Adjacent order is order throughout: every date is at least every later one. */
  lemma {:induction false} SortedIsDescending(dates: seq<Date>)
    requires IsSorted(dates)
    ensures forall i, j | 0 <= i <= j < |dates| :: DateLe(dates[j], dates[i])
  {
    forall i, j | 0 <= i <= j < |dates|
      ensures DateLe(dates[j], dates[i])
    {
      DescendingFrom(dates, i, j);
    }
  }

  lemma {:induction false} DescendingFrom(dates: seq<Date>, i: nat, j: nat)
    requires IsSorted(dates) && i <= j < |dates|
    ensures DateLe(dates[j], dates[i])
    decreases j - i
  {
    if i < j {
      DescendingFrom(dates, i + 1, j);
      assert DateLe(dates[i + 1], dates[i]);
    }
  }

  datatype Verdict = Success | Warning | Fail | Crashed

  /** The cells the script reads: those with "2024" in them. */
  function TestDates(cells: seq<string>): seq<string>
  {
    Filter(cells, (c: string) => Contains(c, "2024"))
  }

  /** Lines 99-120: the verdict on the history's date cells. */
  function CheckHistoryOrder(cells: seq<string>): Verdict
  {
    match ParseAll(TestDates(cells), ParseCell)
    case None => Crashed
    case Some(parsedDates) =>
      if IsSorted(parsedDates) && |parsedDates| >= 3 then Success
      else if |parsedDates| < 3 then Warning
      else Fail
  }

  /** SUCCESS when the 2024 dates are sorted and at least three; WARNING
      whenever fewer than three, sorted or not; FAIL when at least three and
      unsorted, and then two adjacent dates are strictly increasing; the
      error path when a 2024 cell is not a date. */
  lemma {:induction false} VerdictSpec(cells: seq<string>)
    ensures var test := TestDates(cells);
      && (CheckHistoryOrder(cells) == Crashed <==> exists i | 0 <= i < |test| :: ParseCell(test[i]).None?)
      && (CheckHistoryOrder(cells) == Success <==>
            ParseAll(test, ParseCell).Some? && IsSorted(ParseAll(test, ParseCell).value) && |test| >= 3)
      && (CheckHistoryOrder(cells) == Warning <==> ParseAll(test, ParseCell).Some? && |test| < 3)
      && (CheckHistoryOrder(cells) == Fail <==>
            ParseAll(test, ParseCell).Some? && !IsSorted(ParseAll(test, ParseCell).value) && |test| >= 3)
      && (CheckHistoryOrder(cells) == Fail ==>
            var dates := ParseAll(test, ParseCell).value;
            exists i | 0 <= i < |dates| - 1 :: !DateLe(dates[i + 1], dates[i]))
  {
    ParseAllSpec(TestDates(cells), ParseCell);
  }

  /** Under SUCCESS the 2024 dates are in non-increasing order throughout. */
  lemma {:induction false} SuccessMeansDescending(cells: seq<string>)
    requires CheckHistoryOrder(cells) == Success
    ensures var dates := ParseAll(TestDates(cells), ParseCell).value;
      |dates| >= 3 && forall i, j | 0 <= i <= j < |dates| :: DateLe(dates[j], dates[i])
  {
    SortedIsDescending(ParseAll(TestDates(cells), ParseCell).value);
  }

  /** A cell without "2024" does not change the verdict. */
  lemma {:induction false} OtherYearsIgnored(cells: seq<string>, cell: string)
    requires !Contains(cell, "2024")
    ensures CheckHistoryOrder(cells + [cell]) == CheckHistoryOrder(cells)
  {
    var cs := cells + [cell];
    assert cs[..|cs| - 1] == cells;
    assert TestDates(cs) == TestDates(cells);
  }
}
