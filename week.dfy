/**
 * The week field of a coordination delivery (test_week_logic.js): a
 * comma-separated list of weekdays, each optionally followed by a date in
 * parentheses, "Segunda (2023-10-23), Quarta". `parseWeek` reads it into a
 * map from weekday to date ('' when the day has none) and
 * `updateWeekMetadata` writes such a map back.
 */
module WeekLogic {
  import opened Wrappers
  import opened Text

  /** The weekdays the field may name, in the order they are written. */
  const WeekDays: seq<string> := ["Segunda", "Terça", "Quarta", "Quinta", "Sexta"]

  /** What `.` in a JavaScript regular expression does not match. */
  const LineTerminators: set<char> := {'\n', '\r', '\U{2028}', '\U{2029}'}

  type WeekMap = map<string, string>

  // ------------------------------------------------------------- parsing

  /** What is left after the day matches `\s\((.+)\)$`: a blank (line
      terminators included), '(', a date of at least one character that `.`
      matches, and ')' at the very end. */
  predicate DateSuffix(rest: string)
  {
    && |rest| >= 4 && rest[0] in JsBlanks && rest[1] == '(' && rest[|rest| - 1] == ')'
    && forall i | 2 <= i < |rest| - 1 :: rest[i] !in LineTerminators
  }

  /** The lazy `(.+?)` tries day lengths from k upwards; `.` cannot cross a
      line terminator, so the search fails once the day would hold one. At
      each length the optional date group is tried first, then the end of
      the part. */
  function DayFrom(part: string, k: nat): Option<(string, string)>
    requires 1 <= k <= |part|
    decreases |part| - k
  {
    if part[k - 1] in LineTerminators then None
    else if DateSuffix(part[k..]) then Some((part[..k], part[k + 2..|part| - 1]))
    else if k == |part| then Some((part, ""))
    else DayFrom(part, k + 1)
  }

  /** `part.match(/^(.+?)(?:\s\((.+)\))?$/)`: the day and the date (`''`
      when the group did not take part), or None when nothing matches. */
  function MatchDay(part: string): Option<(string, string)>
  {
    if part == [] then None else DayFrom(part, 1)
  }

  /** What the regular expression makes of one comma-separated part. */
  function ReadPart(part: string): Option<(string, string)>
  {
    MatchDay(Trim(part))
  }

  /** One iteration of the `forEach`: a weekday sets its date, anything else
      is ignored. */
  function Enter(m: WeekMap, matched: Option<(string, string)>): WeekMap
  {
    match matched
    case Some((day, date)) => if day in WeekDays then m[day := date] else m
    case None => m
  }

  /** The remaining parts, as `read` makes them out, entered in order into `m`. */
  function EnterAll(m: WeekMap, parts: seq<string>, read: string -> Option<(string, string)>): WeekMap
    decreases |parts|
  {
    if parts == [] then m else EnterAll(Enter(m, read(parts[0])), parts[1..], read)
  }

  /** The map `parseWeek` returns. */
  function WeekOf(weekStr: string): WeekMap
  {
    if weekStr == "" then map[] else EnterAll(map[], Split(weekStr, ','), ReadPart)
  }

  /** `parseWeek`. */
  method ParseWeek(weekStr: string) returns (m: WeekMap)
    ensures m == WeekOf(weekStr)
  {
    m := map[];
    if weekStr == "" {
      return;
    }
    var parts := Split(weekStr, ',');
    var i := 0;
    while i < |parts|
      invariant 0 <= i <= |parts|
      invariant EnterAll(m, parts[i..], ReadPart) == EnterAll(map[], parts, ReadPart)
    {
      var matched := ReadPart(parts[i]);
      if matched.Some? && matched.value.0 in WeekDays {
        m := m[matched.value.0 := matched.value.1];
      }
      assert parts[i..][1..] == parts[i + 1..];
      i := i + 1;
    }
  }

  /** The part, as `read` makes it out, names this day. */
  predicate Gives(read: string -> Option<(string, string)>, part: string, day: string)
  {
    read(part).Some? && read(part).value.0 == day
  }

  /** Reference definition: the date given to `day` by the last part that
      names it, if any part does. */
  function LastGiven(parts: seq<string>, read: string -> Option<(string, string)>, day: string): Option<string>
    decreases |parts|
  {
    if parts == [] then None
    else
      match LastGiven(parts[1..], read, day)
      case Some(date) => Some(date)
      case None => if Gives(read, parts[0], day) then Some(read(parts[0]).value.1) else None
  }

  /** `LastGiven` finds nothing exactly when no part names the day, and
      otherwise the date of a part after which no part names it. */
  lemma {:induction false} LastGivenSpec(parts: seq<string>, read: string -> Option<(string, string)>, day: string)
    ensures LastGiven(parts, read, day).None? <==> forall i | 0 <= i < |parts| :: !Gives(read, parts[i], day)
    ensures LastGiven(parts, read, day).Some? ==>
      exists i | 0 <= i < |parts| ::
        && read(parts[i]) == Some((day, LastGiven(parts, read, day).value))
        && forall j | i < j < |parts| :: !Gives(read, parts[j], day)
    decreases |parts|
  {
    if parts != [] {
      var tail := parts[1..];
      LastGivenSpec(tail, read, day);
      assert forall i | 0 <= i < |tail| :: tail[i] == parts[i + 1];
      match LastGiven(tail, read, day)
      case Some(date) =>
        var i :| 0 <= i < |tail| && read(tail[i]) == Some((day, date))
          && forall j | i < j < |tail| :: !Gives(read, tail[j], day);
        assert read(parts[i + 1]) == Some((day, date));
        forall j | i + 1 < j < |parts|
          ensures !Gives(read, parts[j], day)
        {
          assert parts[j] == tail[j - 1];
        }
      case None =>
        if Gives(read, parts[0], day) {
          assert read(parts[0]) == Some((day, LastGiven(parts, read, day).value));
        } else {
          forall i | 0 <= i < |parts|
            ensures !Gives(read, parts[i], day)
          {
            if i > 0 {
              assert parts[i] == tail[i - 1];
            }
          }
        }
    }
  }

  /** Entering the parts in order keeps the keys there were and adds each
      weekday some part names; a weekday named by a part takes the date of
      the last part naming it, every other key keeps its date. */
  lemma {:induction false} EnterAllSpec(m: WeekMap, parts: seq<string>, read: string -> Option<(string, string)>, day: string)
    ensures var r := EnterAll(m, parts, read);
      && (day in r <==> day in m || (day in WeekDays && LastGiven(parts, read, day).Some?))
      && (day in r ==> r[day] == if day in WeekDays && LastGiven(parts, read, day).Some?
                                 then LastGiven(parts, read, day).value else m[day])
    decreases |parts|
  {
    if parts != [] {
      var m' := Enter(m, read(parts[0]));
      EnterAllSpec(m', parts[1..], read, day);
      assert EnterAll(m, parts, read) == EnterAll(m', parts[1..], read);
      if day in WeekDays && Gives(read, parts[0], day) {
        assert day in m' && m'[day] == read(parts[0]).value.1;
      } else {
        assert (day in m' <==> day in m) && (day in m ==> m'[day] == m[day]);
      }
    }
  }

  /** `parseWeek` of an empty field is the empty map. Otherwise a day is a
      key exactly when it is a weekday some comma-separated part names, and
      its date is the one given by the last part naming it. */
  lemma {:induction false} WeekOfSpec(weekStr: string)
    ensures weekStr == "" ==> WeekOf(weekStr) == map[]
    ensures var m, parts := WeekOf(weekStr), Split(weekStr, ',');
      weekStr != "" ==>
        && (forall d :: d in m <==> d in WeekDays && exists i | 0 <= i < |parts| :: Gives(ReadPart, parts[i], d))
        && (forall d | d in m :: exists i | 0 <= i < |parts| ::
              && ReadPart(parts[i]) == Some((d, m[d]))
              && forall j | i < j < |parts| :: !Gives(ReadPart, parts[j], d))
  {
    if weekStr != "" {
      var m, parts := WeekOf(weekStr), Split(weekStr, ',');
      forall d
        ensures d in m <==> d in WeekDays && exists i | 0 <= i < |parts| :: Gives(ReadPart, parts[i], d)
        ensures d in m ==> exists i | 0 <= i < |parts| ::
              && ReadPart(parts[i]) == Some((d, m[d]))
              && forall j | i < j < |parts| :: !Gives(ReadPart, parts[j], d)
      {
        EnterAllSpec(map[], parts, ReadPart, d);
        LastGivenSpec(parts, ReadPart, d);
      }
    }
  }

  // ----------------------------------------------------------- rendering

  /** `newMap[d] ? \`${d} (${newMap[d]})\` : d`. */
  function Render(day: string, date: string): string
  {
    if date != "" then day + " (" + date + ")" else day
  }

  /** The rendered parts of the listed days that the map has, in list order. */
  function WeekParts(m: WeekMap, days: seq<string>): seq<string>
    decreases |days|
  {
    if days == [] then []
    else (if days[0] in m then [Render(days[0], m[days[0]])] else []) + WeekParts(m, days[1..])
  }

  /** `updateWeekMetadata`. */
  function UpdateWeekMetadata(m: WeekMap): string
  {
    Join(WeekParts(m, WeekDays), ", ")
  }

  /** Maps that agree on the listed days render them alike. */
  lemma {:induction false} WeekPartsAgree(m1: WeekMap, m2: WeekMap, days: seq<string>)
    requires forall d | d in days :: (d in m1 <==> d in m2) && (d in m1 ==> m1[d] == m2[d])
    ensures WeekParts(m1, days) == WeekParts(m2, days)
    decreases |days|
  {
    if days != [] {
      WeekPartsAgree(m1, m2, days[1..]);
    }
  }

  /** Rendering a list split in two renders each half. */
  lemma {:induction false} WeekPartsAppend(m: WeekMap, a: seq<string>, b: seq<string>)
    ensures WeekParts(m, a + b) == WeekParts(m, a) + WeekParts(m, b)
    decreases |a|
  {
    if a == [] {
      assert a + b == b;
    } else {
      assert (a + b)[1..] == a[1..] + b;
      WeekPartsAppend(m, a[1..], b);
    }
  }

  /** A day listed once is in neither the days before it nor those after it. */
  lemma {:induction false} ListedOnce(days: seq<string>, i: nat)
    requires i < |days|
    requires forall j | 0 <= j < |days| && j != i :: days[j] != days[i]
    ensures days == days[..i] + ([days[i]] + days[i + 1..])
    ensures days[i] !in days[..i] && days[i] !in days[i + 1..]
  {
    var d, before, after := days[i], days[..i], days[i + 1..];
    assert days == before + ([d] + after);
    forall j | 0 <= j < |before|
      ensures before[j] != d
    {
      assert before[j] == days[j];
    }
    forall j | 0 <= j < |after|
      ensures after[j] != d
    {
      assert after[j] == days[i + 1 + j];
    }
  }

  /** The parts of the days around one day that the map leaves alone. */
  lemma {:induction false} PartsAround(m: WeekMap, m': WeekMap, d: string, before: seq<string>, after: seq<string>)
    requires d !in before && d !in after
    requires forall e | e != d :: (e in m' <==> e in m) && (e in m' ==> m'[e] == m[e])
    ensures WeekParts(m', before + ([d] + after)) ==
      WeekParts(m, before) + WeekParts(m', [d] + after)
    ensures WeekParts(m', [d] + after) == WeekParts(m', [d]) + WeekParts(m, after)
  {
    WeekPartsAppend(m', before, [d] + after);
    WeekPartsAgree(m', m, before);
    WeekPartsAppend(m', [d], after);
    WeekPartsAgree(m', m, after);
  }

  lemma {:induction false} EditOneDayIn(m: WeekMap, days: seq<string>, i: nat, date: string)
    requires i < |days|
    requires forall j | 0 <= j < |days| && j != i :: days[j] != days[i]
    ensures var d := days[i];
      WeekParts(m[d := date], days) ==
        WeekParts(m, days[..i]) + [Render(d, date)] + WeekParts(m, days[i + 1..])
    ensures WeekParts(m - {days[i]}, days) == WeekParts(m, days[..i]) + WeekParts(m, days[i + 1..])
  {
    var d := days[i];
    ListedOnce(days, i);
    PartsAround(m, m[d := date], d, days[..i], days[i + 1..]);
    PartsAround(m, m - {d}, d, days[..i], days[i + 1..]);
    assert [d][1..] == [];
    assert WeekParts(m[d := date], [d]) == [Render(d, date)];
    assert WeekParts(m - {d}, [d]) == [];
  }

  /** Setting, re-dating or removing one weekday changes only that day's part
      of the field: the parts of the days before and after it are those of
      the old map. */
  lemma {:induction false} EditOneDay(m: WeekMap, i: nat, date: string)
    requires i < |WeekDays|
    ensures var d := WeekDays[i];
      WeekParts(m[d := date], WeekDays) ==
        WeekParts(m, WeekDays[..i]) + [Render(d, date)] + WeekParts(m, WeekDays[i + 1..])
    ensures WeekParts(m - {WeekDays[i]}, WeekDays) ==
        WeekParts(m, WeekDays[..i]) + WeekParts(m, WeekDays[i + 1..])
  {
    assert forall j, k | 0 <= j < k < |WeekDays| :: WeekDays[j] != WeekDays[k];
    EditOneDayIn(m, WeekDays, i, date);
  }

  // ------------------------------------------------------------ round trip

  /** The characters of the weekday names. */
  predicate NameChar(c: char)
  {
    ('a' <= c <= 'z') || ('A' <= c <= 'Z') || c == 'ç'
  }

  lemma {:induction false} NameCharIsPlain(c: char)
    requires NameChar(c)
    ensures c !in JsBlanks && c !in LineTerminators && c != ','
  {
  }

  lemma {:induction false} WeekDayName(d: string)
    requires d in WeekDays
    ensures |d| >= 1 && forall i | 0 <= i < |d| :: NameChar(d[i])
  {
    if d == "Segunda" {
    } else if d == "Terça" {
    } else if d == "Quarta" {
    } else if d == "Quinta" {
    } else {
      assert d == "Sexta";
    }
  }

  /** A date the field can carry: no comma and no line break. */
  predicate PlainDate(date: string)
  {
    forall i | 0 <= i < |date| :: date[i] != ',' && date[i] !in LineTerminators
  }

  /** A map `updateWeekMetadata` can write and `parseWeek` read back. */
  predicate Writable(m: WeekMap)
  {
    forall d | d in m :: d in WeekDays && PlainDate(m[d])
  }

  /** Characters that are neither blanks nor line terminators cannot start
      the date suffix, nor end the search. */
  lemma {:induction false} DayFromSkips(part: string, k: nat, j: nat)
    requires 1 <= k <= j <= |part|
    requires forall i | k - 1 <= i < j :: part[i] !in JsBlanks && part[i] !in LineTerminators
    ensures DayFrom(part, k) == DayFrom(part, j)
    decreases j - k
  {
    if k < j {
      DayFromSkips(part, k + 1, j);
    }
  }

  /** A rendered day has no blank at either end, no comma and no line break. */
  lemma {:induction false} RenderedShape(day: string, date: string)
    requires day in WeekDays && PlainDate(date)
    ensures var p := Render(day, date);
      && p != [] && p[0] !in JsBlanks && p[|p| - 1] !in JsBlanks
      && (forall i | 0 <= i < |p| :: p[i] != ',' && p[i] !in LineTerminators)
  {
    WeekDayName(day);
    var p := Render(day, date);
    NameCharIsPlain(day[0]);
    NameCharIsPlain(day[|day| - 1]);
    forall i | 0 <= i < |p|
      ensures p[i] != ',' && p[i] !in LineTerminators
    {
      if i < |day| {
        NameCharIsPlain(day[i]);
      } else if i >= |day| + 2 && i < |p| - 1 {
        assert p[i] == date[i - |day| - 2];
      }
    }
    if date != "" {
      assert p[|p| - 1] == ')';
    } else {
      assert p[|p| - 1] == day[|day| - 1];
    }
    assert p[0] == day[0];
  }

  /** The regular expression splits a rendered day back into day and date. */
  lemma {:induction false} MatchRendered(day: string, date: string)
    requires day in WeekDays && PlainDate(date)
    ensures MatchDay(Render(day, date)) == Some((day, date))
  {
    var p := Render(day, date);
    RenderedShape(day, date);
    WeekDayName(day);
    forall i | 0 <= i < |day|
      ensures p[i] !in JsBlanks && p[i] !in LineTerminators
    {
      NameCharIsPlain(day[i]);
    }
    DayFromSkips(p, 1, |day|);
    DayFromAtDate(day, date);
  }

  /** Where the name ends, the rest of a rendered day is its date. */
  lemma {:induction false} DayFromAtDate(day: string, date: string)
    requires day in WeekDays && PlainDate(date)
    ensures 1 <= |day| <= |Render(day, date)|
    ensures DayFrom(Render(day, date), |day|) == Some((day, date))
  {
    WeekDayName(day);
    NameCharIsPlain(day[|day| - 1]);
    var p := Render(day, date);
    assert p[..|day|] == day;
    if date != "" {
      var rest := p[|day|..];
      assert rest == " (" + date + ")";
      assert p[|day| + 2..|p| - 1] == date;
      forall i | 2 <= i < |rest| - 1
        ensures rest[i] !in LineTerminators
      {
        assert rest[i] == date[i - 2];
      }
      assert DateSuffix(rest);
    }
  }

  /** Any blank the regular expression's `\s` accepts, a line break
      included, may stand before the parenthesised date. */
  lemma {:induction false} MatchBehindBlank(day: string, c: char, date: string)
    requires day in WeekDays && c in JsBlanks && date != []
    requires forall i | 0 <= i < |date| :: date[i] !in LineTerminators
    ensures MatchDay(day + [c] + "(" + date + ")") == Some((day, date))
  {
    var rest := [c] + "(" + date + ")";
    var p := day + rest;
    assert p == day + [c] + "(" + date + ")";
    WeekDayName(day);
    PlainPrefix(day, rest);
    DayFromSkips(p, 1, |day|);
    NameCharIsPlain(day[|day| - 1]);
    assert p[|day|..] == rest && p[..|day|] == day;
    assert rest[2..|rest| - 1] == date;
    assert DateSuffix(rest);
  }

  /** `\s` takes a line break where `.` does not: "Segunda\n(23)" is read as
      Segunda on "23". */
  lemma {:induction false} MatchAcrossLineBreak()
    ensures MatchDay("Segunda\n(23)") == Some(("Segunda", "23"))
  {
    assert "Segunda\n(23)" == "Segunda" + ['\n'] + "(" + "23" + ")";
    MatchBehindBlank("Segunda", '\n', "23");
  }

  /** A line break inside the day makes the match fail. */
  lemma {:induction false} LineBreakInDay()
    ensures MatchDay("Seg\nunda") == None
  {
    var q := "Seg\nunda";
    PlainPrefix("Seg", "\nunda");
    DayFromSkips(q, 1, 3);
    assert !DateSuffix(q[3..]);
  }

  /** The letters of a name at the front of a part neither start the date
      suffix nor end the search. */
  lemma {:induction false} PlainPrefix(name: string, rest: string)
    requires forall i | 0 <= i < |name| :: NameChar(name[i])
    ensures forall i | 0 <= i < |name| ::
      (name + rest)[i] !in JsBlanks && (name + rest)[i] !in LineTerminators
  {
    forall i | 0 <= i < |name|
      ensures (name + rest)[i] !in JsBlanks && (name + rest)[i] !in LineTerminators
    {
      assert (name + rest)[i] == name[i];
      NameCharIsPlain(name[i]);
    }
  }

  /** A blank and then a rendered day trims to the rendered day. */
  lemma {:induction false} TrimRendered(day: string, date: string)
    requires day in WeekDays && PlainDate(date)
    ensures Trim(Render(day, date)) == Render(day, date)
    ensures Trim(" " + Render(day, date)) == Render(day, date)
  {
    var p := Render(day, date);
    RenderedShape(day, date);
    assert (" " + p)[1..] == p;
    assert TrimLeft(" " + p, JsBlanks) == TrimLeft(p, JsBlanks);
  }

  /** Each part "x" after the first is read as " x". */
  function Spaced(parts: seq<string>): seq<string>
    decreases |parts|
  {
    if parts == [] then [] else [" " + parts[0]] + Spaced(parts[1..])
  }

  lemma {:induction false} SplitSpaced(parts: seq<string>)
    requires |parts| >= 1
    requires forall i | 0 <= i < |parts| :: ',' !in parts[i]
    ensures Split(" " + Join(parts, ", "), ',') == Spaced(parts)
    decreases |parts|
  {
    var s := " " + Join(parts, ", ");
    var rest := Split(s[1..], ',');
    assert s[1..] == Join(parts, ", ");
    if |parts| == 1 {
      SplitWithoutSeparator(parts[0], ',');
    } else {
      SplitSpaced(parts[1..]);
      assert Join(parts, ", ") == parts[0] + [','] + (" " + Join(parts[1..], ", "));
      SplitAtFirst(parts[0], ',', " " + Join(parts[1..], ", "));
    }
  }

  /** `a, b, ...` is the first part, a comma, and the rest behind a blank. */
  lemma {:induction false} JoinCommaSpace(parts: seq<string>)
    requires |parts| > 1
    ensures Join(parts, ", ") == parts[0] + [','] + (" " + Join(parts[1..], ", "))
  {
    var rest := Join(parts[1..], ", ");
    assert Join(parts, ", ") == parts[0] + ", " + rest;
    assert ", " + rest == [','] + (" " + rest);
  }

  lemma {:induction false} SplitRendered(parts: seq<string>)
    requires |parts| >= 1
    requires forall i | 0 <= i < |parts| :: ',' !in parts[i]
    ensures Split(Join(parts, ", "), ',') == [parts[0]] + Spaced(parts[1..])
  {
    if |parts| == 1 {
      SplitWithoutSeparator(parts[0], ',');
      assert Join(parts, ", ") == parts[0];
      assert Spaced(parts[1..]) == [];
    } else {
      SplitSpaced(parts[1..]);
      JoinCommaSpace(parts);
      SplitAtFirst(parts[0], ',', " " + Join(parts[1..], ", "));
    }
  }

  /** The days of m in the list, as a map. */
  function Restrict(m: WeekMap, days: seq<string>): WeekMap
  {
    map d | d in m && d in days :: m[d]
  }

  /** Reading the rendered days of a list enters exactly those days, when
      the reader gives back each rendered day behind its blank. */
  lemma {:induction false} EnterRendered(acc: WeekMap, m: WeekMap, days: seq<string>, read: string -> Option<(string, string)>)
    requires forall d | d in days :: d in WeekDays
    requires forall d | d in days && d in m :: read(" " + Render(d, m[d])) == Some((d, m[d]))
    ensures EnterAll(acc, Spaced(WeekParts(m, days)), read) == acc + Restrict(m, days)
    decreases |days|
  {
    if days != [] {
      var d := days[0];
      var acc' := if d in m then acc[d := m[d]] else acc;
      EnterRendered(acc', m, days[1..], read);
      var tail := Spaced(WeekParts(m, days[1..]));
      if d in m {
        var p := Render(d, m[d]);
        assert WeekParts(m, days) == [p] + WeekParts(m, days[1..]);
        assert Spaced(WeekParts(m, days)) == [" " + p] + tail;
        assert Enter(acc, read(" " + p)) == acc';
      } else {
        assert WeekParts(m, days) == WeekParts(m, days[1..]);
      }
      RestrictCons(acc, m, days);
    }
  }

  lemma {:induction false} RestrictCons(acc: WeekMap, m: WeekMap, days: seq<string>)
    requires days != []
    ensures var d := days[0];
      (if d in m then acc[d := m[d]] else acc) + Restrict(m, days[1..]) == acc + Restrict(m, days)
  {
    var d := days[0];
    var acc' := if d in m then acc[d := m[d]] else acc;
    forall x
      ensures x in days <==> x == d || x in days[1..]
    {
      assert days == [d] + days[1..];
    }
    assert (acc' + Restrict(m, days[1..])).Keys == (acc + Restrict(m, days)).Keys;
  }

  /** The reader of `parseWeek` gives back a rendered day, with or without
      the blank that follows a comma. */
  lemma {:induction false} ReadRendered(day: string, date: string)
    requires day in WeekDays && PlainDate(date)
    ensures ReadPart(Render(day, date)) == Some((day, date))
    ensures ReadPart(" " + Render(day, date)) == Some((day, date))
  {
    TrimRendered(day, date);
    MatchRendered(day, date);
  }

  lemma {:induction false} RenderedHaveNoComma(m: WeekMap, days: seq<string>)
    requires Writable(m)
    requires forall d | d in days :: d in WeekDays
    ensures forall i | 0 <= i < |WeekParts(m, days)| :: ',' !in WeekParts(m, days)[i]
    decreases |days|
  {
    if days != [] {
      RenderedHaveNoComma(m, days[1..]);
      if days[0] in m {
        RenderedShape(days[0], m[days[0]]);
      }
    }
  }

  /** The first rendered part is some listed day of the map. */
  lemma {:induction false} FirstPart(m: WeekMap, days: seq<string>)
    requires WeekParts(m, days) != []
    ensures exists d | d in days && d in m :: WeekParts(m, days)[0] == Render(d, m[d])
    decreases |days|
  {
    if days[0] !in m {
      FirstPart(m, days[1..]);
    }
  }

  /** Parts the reader cannot tell apart enter alike. */
  lemma {:induction false} SwapFirst(p: string, q: string, rest: seq<string>, read: string -> Option<(string, string)>)
    requires read(p) == read(q)
    ensures EnterAll(map[], [p] + rest, read) == EnterAll(map[], [q] + rest, read)
  {
    assert ([p] + rest)[1..] == rest;
    assert ([q] + rest)[1..] == rest;
  }

  /** Something is written as soon as one day is rendered. */
  lemma {:induction false} WrittenNonEmpty(m: WeekMap)
    requires Writable(m) && WeekParts(m, WeekDays) != []
    ensures UpdateWeekMetadata(m) != ""
  {
    var parts := WeekParts(m, WeekDays);
    FirstPart(m, WeekDays);
    var d :| d in WeekDays && d in m && parts[0] == Render(d, m[d]);
    RenderedShape(d, m[d]);
    JoinStarts(parts, ", ");
  }

  /** Entering the rendered days, each behind its blank, gives the map back. */
  lemma {:induction false} EnterWritten(m: WeekMap, read: string -> Option<(string, string)>)
    requires Writable(m)
    requires forall d | d in WeekDays && d in m :: read(" " + Render(d, m[d])) == Some((d, m[d]))
    ensures EnterAll(map[], Spaced(WeekParts(m, WeekDays)), read) == m
  {
    EnterRendered(map[], m, WeekDays, read);
    assert Restrict(m, WeekDays) == m;
  }

  /** Splitting the written field at its commas gives the rendered days, the
      first without its blank, and the reader takes both forms alike. */
  lemma {:induction false} SplitWritten(m: WeekMap, read: string -> Option<(string, string)>)
    requires Writable(m) && WeekParts(m, WeekDays) != []
    requires forall d | d in WeekDays && d in m ::
      read(Render(d, m[d])) == Some((d, m[d])) && read(" " + Render(d, m[d])) == Some((d, m[d]))
    ensures UpdateWeekMetadata(m) != ""
    ensures EnterAll(map[], Split(UpdateWeekMetadata(m), ','), read)
         == EnterAll(map[], Spaced(WeekParts(m, WeekDays)), read)
  {
    var parts := WeekParts(m, WeekDays);
    RenderedHaveNoComma(m, WeekDays);
    SplitRendered(parts);
    FirstPart(m, WeekDays);
    var d :| d in WeekDays && d in m && parts[0] == Render(d, m[d]);
    assert Spaced(parts) == [" " + parts[0]] + Spaced(parts[1..]);
    SwapFirst(parts[0], " " + parts[0], Spaced(parts[1..]), read);
    WrittenNonEmpty(m);
  }

  /** Splitting what `updateWeekMetadata` writes and entering the parts
      gives the map back, for a reader that gives back each rendered day. */
  lemma {:induction false} RoundTripWith(m: WeekMap, read: string -> Option<(string, string)>)
    requires Writable(m)
    requires forall d | d in WeekDays && d in m ::
      read(Render(d, m[d])) == Some((d, m[d])) && read(" " + Render(d, m[d])) == Some((d, m[d]))
    ensures m == map[] || UpdateWeekMetadata(m) != ""
    ensures UpdateWeekMetadata(m) != "" ==> EnterAll(map[], Split(UpdateWeekMetadata(m), ','), read) == m
  {
    EnterWritten(m, read);
    if WeekParts(m, WeekDays) != [] {
      SplitWritten(m, read);
    }
  }

  /** For a map of weekdays whose dates have no comma and no line break,
      parsing what `updateWeekMetadata` writes gives the map back. */
  lemma {:induction false} RoundTrip(m: WeekMap)
    requires Writable(m)
    ensures WeekOf(UpdateWeekMetadata(m)) == m
  {
    forall d | d in WeekDays && d in m
      ensures ReadPart(Render(d, m[d])) == Some((d, m[d]))
      ensures ReadPart(" " + Render(d, m[d])) == Some((d, m[d]))
    {
      ReadRendered(d, m[d]);
    }
    RoundTripWith(m, ReadPart);
  }

  // -------------------------------------------------------- the scenario

  /** What "Segunda (2023-10-23), Quarta" stands for. */
  const ExampleWeek: WeekMap := map["Segunda" := "2023-10-23", "Quarta" := ""]

  /** Neither Quinta nor Sexta is in the example. */
  lemma {:induction false} ExampleLateDays()
    ensures WeekParts(ExampleWeek, ["Quinta", "Sexta"]) == []
  {
    assert "Sexta" !in ExampleWeek && "Quinta" !in ExampleWeek;
    assert WeekParts(ExampleWeek, ["Sexta"]) == [] by {
      assert ["Sexta"][1..] == [];
    }
    assert ["Quinta", "Sexta"][1..] == ["Sexta"];
  }

  /** From Terça on, only Quarta is rendered. */
  lemma {:induction false} ExampleFromTerca()
    ensures WeekParts(ExampleWeek, WeekDays[1..]) == ["Quarta"]
  {
    ExampleLateDays();
    assert "Terça" !in ExampleWeek && "Quarta" in ExampleWeek && ExampleWeek["Quarta"] == "";
    assert WeekParts(ExampleWeek, ["Quarta", "Quinta", "Sexta"]) == ["Quarta"] by {
      assert ["Quarta", "Quinta", "Sexta"][1..] == ["Quinta", "Sexta"];
    }
    assert WeekDays[1..] == ["Terça", "Quarta", "Quinta", "Sexta"];
    assert WeekDays[1..][1..] == ["Quarta", "Quinta", "Sexta"];
  }

  lemma {:induction false} ExampleParts()
    ensures WeekParts(ExampleWeek, WeekDays) == ["Segunda (2023-10-23)", "Quarta"]
  {
    ExampleFromTerca();
    assert WeekDays[0] == "Segunda" && "Segunda" in ExampleWeek && ExampleWeek["Segunda"] == "2023-10-23";
    assert Render("Segunda", "2023-10-23") == "Segunda (2023-10-23)";
  }

  /** Up to Quinta the example renders its two days. */
  lemma {:induction false} ExampleFirstFour()
    ensures WeekParts(ExampleWeek, WeekDays[..4]) == ["Segunda (2023-10-23)", "Quarta"]
  {
    ExampleParts();
    assert WeekDays[..4] + [WeekDays[4]] == WeekDays;
    WeekPartsAppend(ExampleWeek, WeekDays[..4], [WeekDays[4]]);
    assert WeekParts(ExampleWeek, [WeekDays[4]]) == [] by {
      assert "Sexta" !in ExampleWeek;
      assert [WeekDays[4]][1..] == [];
    }
  }

  lemma {:induction false} ExampleWritten()
    ensures UpdateWeekMetadata(ExampleWeek) == "Segunda (2023-10-23), Quarta"
  {
    var a: string, b: string := "Segunda (2023-10-23)", "Quarta";
    ExampleParts();
    assert [a, b][1..] == [b];
    assert Join([a, b], ", ") == a + ", " + b;
  }

  /** The field of the test script reads as Segunda on 2023-10-23 and Quarta
      without a date. */
  lemma {:induction false} ExampleParsed()
    ensures WeekOf("Segunda (2023-10-23), Quarta") == ExampleWeek
  {
    ExampleWritten();
    assert Writable(ExampleWeek);
    RoundTrip(ExampleWeek);
  }

  /** Checking Sexta adds its part after the example's two. */
  lemma {:induction false} ExampleSextaParts()
    ensures WeekParts(ExampleWeek["Sexta" := ""], WeekDays) == ["Segunda (2023-10-23)", "Quarta", "Sexta"]
  {
    ExampleFirstFour();
    EditOneDay(ExampleWeek, 4, "");
    assert WeekDays[4] == "Sexta" && Render("Sexta", "") == "Sexta";
    assert WeekParts(ExampleWeek, WeekDays[5..]) == [] by {
      assert WeekDays[5..] == [];
    }
  }

  /** Checking Sexta appends ", Sexta" to the field. */
  lemma {:induction false} ExampleAddSexta()
    ensures UpdateWeekMetadata(ExampleWeek["Sexta" := ""]) == "Segunda (2023-10-23), Quarta, Sexta"
  {
    ExampleSextaParts();
    JoinThree("Segunda (2023-10-23)", "Quarta", "Sexta", ", ");
  }
}
