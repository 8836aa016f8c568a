/**
 * The turnstile ("catraca") feed. Each line is `ID;Matrícula;Code;Date;Time;Gate`,
 * for example `03549;00001018;111;29012026;1042;01`. Dates arrive as DDMMYYYY
 * or DD/MM/YYYY and are turned into the ISO 8601 calendar-date form
 * YYYY-MM-DD (section 4.1.2.2 of ISO 8601:2004); times arrive as HHMM or HH:MM.
 *
 * The date and time rules here are shared by the line parser, by the
 * browser-side importer and by the server-side importer, which repeat them
 * word for word.
 */
module TurnstileParsing {
  import opened Wrappers
  import opened Text

  datatype TurnstileRecord = TurnstileRecord(
    matricula: string,
    code: string,
    date: string,     // YYYY-MM-DD
    time: string,     // HH:MM
    rawTime: int,     // HHMM, for the shift comparison
    rawLine: string)

  /** Whether the morning and the afternoon shift had turnstile activity on a date. */
  datatype ShiftFlags = ShiftFlags(morning: bool, afternoon: bool)

  /** The note a turnstile passage leaves on the day's record. */
  function PassageNote(code: string, time: string): string
  {
    "Catraca (" + code + ") " + time
  }

  /** The note an automatic absence carries. */
  const AutoAbsenceNote: string := "Ausência automática (Catraca)"

  /** The ISO date of a feed date; None when the line must be dropped. */
  function ParseFeedDate(d: string): (r: Option<string>)
    ensures '/' in d ==> (r.Some? <==> |Split(d, '/')| == 3)
    ensures '/' !in d ==> (r.Some? <==> |d| == 8)
    ensures r.Some? ==> r.value != []
  {
    if '/' in d then
      var parts := Split(d, '/');
      if |parts| == 3 then Some(parts[2] + "-" + parts[1] + "-" + parts[0]) else None
    else if |d| == 8 then
      Some(d[4..8] + "-" + d[2..4] + "-" + d[0..2])
    else
      None
  }

  /** A time of four characters without a colon gains one in the middle. */
  function FormatTime(t: string): (r: string)
    ensures |t| != 4 || ':' in t ==> r == t
    ensures |t| == 4 && ':' !in t ==> |r| == 5 && r[2] == ':' && r[..2] == t[..2] && r[3..] == t[2..]
  {
    if |t| == 4 && ':' !in t then t[0..2] + ":" + t[2..4] else t
  }

  /** `parseInt(t.replace(':', ''), 10)` in the browser: None stands for NaN. */
  function JsClockValue(t: string): Option<int>
  {
    ParseIntJs(RemoveFirst(t, ':'))
  }

  /** `(int)str_replace(':', '', $t)` on the server. */
  function PhpClockValue(t: string): int
  {
    PhpIntCast(RemoveAll(t, ':'))
  }

  /** The record of one feed line, or None when the line is dropped. */
  function ParseLine(line: string): (r: Option<TurnstileRecord>)
    ensures Trim(line) == [] ==> r == None
    ensures Trim(line) != [] && |Split(Trim(line), ';')| < 6 ==> r == None
    ensures r.Some? ==> r.value.rawLine == Trim(line) && r.value.rawLine != []
    ensures r.Some? ==> r.value.date != [] && r.value.time == FormatTime(Trim(Split(Trim(line), ';')[4]))
  {
    var trimmed := Trim(line);
    if trimmed == [] then None
    else
      var cols := Split(trimmed, ';');
      if |cols| < 6 then None
      else
        var dateISO := ParseFeedDate(Trim(cols[3]));
        if dateISO.None? then None
        else
          var timeRaw := Trim(cols[4]);
          Some(TurnstileRecord(Trim(cols[1]), Trim(cols[2]), dateISO.value,
                               FormatTime(timeRaw), JsClockValue(timeRaw).GetOr(0), trimmed))
  }

  /** One record per accepted line, in line order. */
  function ParseAll(lines: seq<string>): (r: seq<TurnstileRecord>)
    ensures |r| <= |lines|
  {
    if lines == [] then []
    else
      var last := ParseLine(lines[|lines| - 1]);
      ParseAll(lines[..|lines| - 1]) + (if last.Some? then [last.value] else [])
  }

  /** The record keeps the trimmed text of one of the non-blank lines. */
  predicate FromSomeLine(rec: TurnstileRecord, lines: seq<string>)
  {
    rec.rawLine != [] && exists j | 0 <= j < |lines| :: rec.rawLine == Trim(lines[j])
  }

  /** Every record comes from a non-blank line of the input, which it keeps trimmed. */
  lemma {:induction false} ParseAllFromLines(lines: seq<string>)
    ensures forall k | 0 <= k < |ParseAll(lines)| :: FromSomeLine(ParseAll(lines)[k], lines)
  {
    if lines != [] {
      var n := |lines| - 1;
      var init := ParseAll(lines[..n]);
      var last := ParseLine(lines[n]);
      ParseAllFromLines(lines[..n]);
      ParseAllStep(lines, n);
      assert lines[..n + 1] == lines;
      forall k | 0 <= k < |ParseAll(lines)|
        ensures FromSomeLine(ParseAll(lines)[k], lines)
      {
        if k < |init| {
          assert ParseAll(lines)[k] == init[k];
          FromPrefix(init[k], lines, n);
        } else {
          assert ParseAll(lines)[k] == last.value;
          assert last.value.rawLine == Trim(lines[n]);
        }
      }
    }
  }

  lemma {:induction false} FromPrefix(rec: TurnstileRecord, lines: seq<string>, n: nat)
    requires n <= |lines| && FromSomeLine(rec, lines[..n])
    ensures FromSomeLine(rec, lines)
  {
    var j :| 0 <= j < n && rec.rawLine == Trim(lines[..n][j]);
    assert lines[..n][j] == lines[j];
  }

  /** `parseTopData`: split the file into lines and parse each one. */
  method ParseTopData(fileContent: string) returns (records: seq<TurnstileRecord>)
    ensures records == ParseAll(Split(fileContent, '\n'))
  {
    var lines := Split(fileContent, '\n');
    records := [];
    for i := 0 to |lines|
      invariant records == ParseAll(lines[..i])
    {
      ParseAllStep(lines, i);
      var trimmed := Trim(lines[i]);
      if trimmed == [] {
        continue;
      }
      var cols := Split(trimmed, ';');
      if |cols| < 6 {
        continue;
      }
      var matriculaRaw := Trim(cols[1]);
      var code := Trim(cols[2]);
      var dateRaw := Trim(cols[3]);
      var timeRaw := Trim(cols[4]);
      var dateISO := ParseFeedDate(dateRaw);
      if dateISO.None? {
        assert ParseLine(lines[i]).None?;
        continue;
      }
      var timeInt := JsClockValue(timeRaw);
      var timeFormatted := timeRaw;
      if |timeRaw| == 4 && ':' !in timeRaw {
        timeFormatted := timeRaw[0..2] + ":" + timeRaw[2..4];
      }
      var rec := TurnstileRecord(matriculaRaw, code, dateISO.value, timeFormatted,
                                 if timeInt.None? then 0 else timeInt.value, trimmed);
      assert ParseLine(lines[i]) == Some(rec);
      records := records + [rec];
    }
    assert lines[..|lines|] == lines;
  }

  lemma {:induction false} ParseAllStep(lines: seq<string>, i: nat)
    requires i < |lines|
    ensures var last := ParseLine(lines[i]);
      ParseAll(lines[..i + 1]) == ParseAll(lines[..i]) + (if last.Some? then [last.value] else [])
  {
    assert lines[..i + 1][..i] == lines[..i];
  }

  /** Parsing distributes over concatenation of line lists. */
  lemma {:induction false} ParseAllAppend(a: seq<string>, b: seq<string>)
    ensures ParseAll(a + b) == ParseAll(a) + ParseAll(b)
  {
    if b != [] {
      var b' := b[..|b| - 1];
      assert (a + b)[..|a + b| - 1] == a + b';
      assert (a + b)[|a + b| - 1] == b[|b| - 1];
      ParseAllAppend(a, b');
    } else {
      assert a + b == a;
    }
  }

  // ------------------------------------------------------------- round trips

  /** A feed line as the turnstile writes it. */
  function FeedLine(id: string, matricula: string, code: string, date: string, time: string,
                    gate: string): string
  {
    id + ";" + (matricula + ";" + (code + ";" + (date + ";" + (time + ";" + gate))))
  }

  /** A date written with two slashes has its three pieces put in reverse
      order around dashes, whatever their lengths: "1/2/2024" reads as
      "2024-2-1". */
  lemma {:induction false} SlashedFeedDate(day: string, month: string, year: string)
    requires '/' !in day && '/' !in month && '/' !in year
    ensures ParseFeedDate(day + "/" + month + "/" + year) == Some(year + "-" + month + "-" + day)
  {
    var d := day + "/" + month + "/" + year;
    assert Join([day, month, year], "/") == d by {
      assert Join([month, year], "/") == month + "/" + year;
    }
    SplitJoin([day, month, year], '/');
    assert d[|day|] == '/';
  }

  /** Both feed date forms come back as the same ISO date. */
  lemma {:induction false} FeedDateRoundTrip(day: string, month: string, year: string)
    requires |day| == 2 && |month| == 2 && |year| == 4
    requires '/' !in day && '/' !in month && '/' !in year
    ensures ParseFeedDate(day + month + year) == Some(year + "-" + month + "-" + day)
    ensures ParseFeedDate(Join([day, month, year], "/")) == Some(year + "-" + month + "-" + day)
  {
    var compact := day + month + year;
    assert compact[4..8] == year && compact[2..4] == month && compact[0..2] == day;
    assert '/' !in compact by {
      assert forall i | 0 <= i < |compact| :: compact[i] in day || compact[i] in month || compact[i] in year;
    }
    SplitJoin([day, month, year], '/');
    assert '/' in Join([day, month, year], "/");
  }

  /** The formatted time reads back as the same clock value, in the browser and on the server. */
  lemma {:induction false} FormatTimeKeepsClockValue(t: string)
    ensures JsClockValue(FormatTime(t)) == JsClockValue(t)
    ensures PhpClockValue(FormatTime(t)) == PhpClockValue(t)
  {
    if |t| == 4 && ':' !in t {
      RemoveWithoutColon(t[0..2]);
      RemoveWithoutColon(t[2..4]);
      assert ':' !in t[0..2] && ':' !in t[2..4];
      RemoveWithoutColon(t);
      var f := t[0..2] + ":" + t[2..4];
      assert RemoveFirst(f, ':') == t by {
        RemoveFirstAt(t[0..2], t[2..4]);
      }
      assert RemoveAll(f, ':') == t by {
        RemoveAllAt(t[0..2], t[2..4]);
      }
    }
  }

  lemma {:induction false} RemoveWithoutColon(s: string)
    requires ':' !in s
    ensures RemoveFirst(s, ':') == s && RemoveAll(s, ':') == s
  {
    if s != [] {
      RemoveWithoutColon(s[1..]);
      assert [s[0]] + s[1..] == s;
    }
  }

  lemma {:induction false} RemoveFirstAt(a: string, b: string)
    requires ':' !in a
    ensures RemoveFirst(a + ":" + b, ':') == a + b
  {
    if a != [] {
      assert (a + ":" + b)[1..] == a[1..] + ":" + b;
      RemoveFirstAt(a[1..], b);
      assert [a[0]] + (a[1..] + b) == a + b;
    } else {
      assert a + ":" + b == [':'] + b;
    }
  }

  lemma {:induction false} RemoveAllAt(a: string, b: string)
    requires ':' !in a && ':' !in b
    ensures RemoveAll(a + ":" + b, ':') == a + b
  {
    if a != [] {
      assert (a + ":" + b)[1..] == a[1..] + ":" + b;
      RemoveAllAt(a[1..], b);
      assert [a[0]] + (a[1..] + b) == a + b;
    } else {
      assert a + ":" + b == [':'] + b;
      RemoveWithoutColon(b);
    }
  }

  /** A feed line splits back into its six fields. */
  lemma {:induction false} FeedLineFields(id: string, matricula: string, code: string, date: string, time: string,
                       gate: string)
    requires ';' !in id && ';' !in matricula && ';' !in code && ';' !in date && ';' !in time && ';' !in gate
    ensures Split(FeedLine(id, matricula, code, date, time, gate), ';') == [id, matricula, code, date, time, gate]
  {
    var r4 := time + ";" + gate;
    var r3 := date + ";" + r4;
    var r2 := code + ";" + r3;
    var r1 := matricula + ";" + r2;
    SplitWithoutSeparator(gate, ';');
    SplitAtFirst(time, ';', gate);
    assert Split(r4, ';') == [time, gate];
    SplitAtFirst(date, ';', r4);
    assert Split(r3, ';') == [date, time, gate];
    SplitAtFirst(code, ';', r3);
    assert Split(r2, ';') == [code, date, time, gate];
    SplitAtFirst(matricula, ';', r2);
    assert Split(r1, ';') == [matricula, code, date, time, gate];
    SplitAtFirst(id, ';', r1);
  }

  /** A feed line whose first and last fields are trimmed needs no trimming. */
  lemma {:induction false} FeedLineTrimmed(id: string, matricula: string, code: string, date: string, time: string,
                        gate: string)
    requires id != [] && gate != [] && Trimmed(id, JsBlanks) && Trimmed(gate, JsBlanks)
    ensures FeedLine(id, matricula, code, date, time, gate) != []
    ensures Trim(FeedLine(id, matricula, code, date, time, gate)) == FeedLine(id, matricula, code, date, time, gate)
  {
    var rest := matricula + ";" + (code + ";" + (date + ";" + (time + ";" + gate)));
    var line := id + ";" + rest;
    assert line[0] == id[0];
    assert line[|line| - 1] == rest[|rest| - 1] == gate[|gate| - 1];
    TrimmedIsFixed(line, JsBlanks);
  }

  /** A string of digits has no white space and none of the feed's separators. */
  lemma {:induction false} DigitsAreInert(s: string)
    requires AllDigits(s)
    ensures Trimmed(s, JsBlanks) && ';' !in s && '/' !in s && ':' !in s
  {
    forall k | 0 <= k < |s|
      ensures s[k] !in JsBlanks
    {
      DigitIsPlain(s[k]);
    }
  }

  /** The parts of a string of digits are digits. */
  lemma {:induction false} DigitsInside(a: string, b: string, c: string)
    requires AllDigits(a + b + c)
    ensures AllDigits(a) && AllDigits(b) && AllDigits(c)
  {
    var s := a + b + c;
    forall i | 0 <= i < |a|
      ensures IsDigit(a[i])
    {
      assert s[i] == a[i];
    }
    forall i | 0 <= i < |b|
      ensures IsDigit(b[i])
    {
      assert s[|a| + i] == b[i];
    }
    forall i | 0 <= i < |c|
      ensures IsDigit(c[i])
    {
      assert s[|a| + |b| + i] == c[i];
    }
  }

  /** parseInt reads a string of digits as its decimal value. */
  lemma {:induction false} ClockValueOfDigits(hhmm: string)
    requires |hhmm| == 4 && AllDigits(hhmm)
    ensures JsClockValue(hhmm) == Some(DigitsValue(hhmm) as int)
  {
    DigitsAreInert(hhmm);
    RemoveWithoutColon(hhmm);
    IntegerFormStripsZeros(hhmm);
  }

  /** What the parser makes of a trimmed line once its fields are known. */
  lemma {:induction false} ParseLineOfFields(line: string, id: string, matricula: string, code: string, date: string,
                          time: string, gate: string, iso: string, formatted: string, rawTime: int)
    requires line != [] && Trim(line) == line && Split(line, ';') == [id, matricula, code, date, time, gate]
    requires Trim(matricula) == matricula && Trim(code) == code
    requires ParseFeedDate(Trim(date)) == Some(iso)
    requires FormatTime(Trim(time)) == formatted && JsClockValue(Trim(time)).GetOr(0) == rawTime
    ensures ParseLine(line) == Some(TurnstileRecord(matricula, code, iso, formatted, rawTime, line))
  {
    var cols := Split(Trim(line), ';');
    assert cols[1] == matricula && cols[2] == code && cols[3] == date && cols[4] == time;
  }

  /** A well-formed feed line parses to its fields, with the date in ISO form,
      the time as HH:MM and its clock value as rawTime. */
  lemma {:induction false} ParseLineOfFeedLine(id: string, matricula: string, code: string, day: string, month: string,
                            year: string, hhmm: string, gate: string)
    requires id != [] && gate != [] && Trimmed(id, JsBlanks) && Trimmed(gate, JsBlanks)
    requires Trim(matricula) == matricula && Trim(code) == code
    requires ';' !in id && ';' !in matricula && ';' !in code && ';' !in gate
    requires |day| == 2 && |month| == 2 && |year| == 4 && AllDigits(day + month + year)
    requires |hhmm| == 4 && AllDigits(hhmm)
    ensures ParseLine(FeedLine(id, matricula, code, day + month + year, hhmm, gate))
         == Some(TurnstileRecord(matricula, code, year + "-" + month + "-" + day,
                                 hhmm[0..2] + ":" + hhmm[2..4], DigitsValue(hhmm),
                                 FeedLine(id, matricula, code, day + month + year, hhmm, gate)))
  {
    var date, iso, formatted := day + month + year, year + "-" + month + "-" + day, hhmm[0..2] + ":" + hhmm[2..4];
    assert ';' !in date && ParseFeedDate(Trim(date)) == Some(iso) by {
      FeedDateOfDigits(day, month, year);
    }
    assert ';' !in hhmm && FormatTime(Trim(hhmm)) == formatted && JsClockValue(Trim(hhmm)).GetOr(0) == DigitsValue(hhmm) by {
      FeedTimeOfDigits(hhmm);
    }
    ParseFeedLine(id, matricula, code, date, hhmm, gate, iso, formatted, DigitsValue(hhmm));
  }

  /** A feed line of fields that read as the given date and time parses to them. */
  lemma {:induction false} ParseFeedLine(id: string, matricula: string, code: string, date: string, time: string,
                                         gate: string, iso: string, formatted: string, rawTime: int)
    requires id != [] && gate != [] && Trimmed(id, JsBlanks) && Trimmed(gate, JsBlanks)
    requires ';' !in id && ';' !in matricula && ';' !in code && ';' !in date && ';' !in time && ';' !in gate
    requires Trim(matricula) == matricula && Trim(code) == code
    requires ParseFeedDate(Trim(date)) == Some(iso)
    requires FormatTime(Trim(time)) == formatted && JsClockValue(Trim(time)).GetOr(0) == rawTime
    ensures ParseLine(FeedLine(id, matricula, code, date, time, gate))
         == Some(TurnstileRecord(matricula, code, iso, formatted, rawTime, FeedLine(id, matricula, code, date, time, gate)))
  {
    FeedLineFields(id, matricula, code, date, time, gate);
    FeedLineTrimmed(id, matricula, code, date, time, gate);
    ParseLineOfFields(FeedLine(id, matricula, code, date, time, gate), id, matricula, code, date, time, gate,
                      iso, formatted, rawTime);
  }

  /** A DDMMYYYY date of digits is a trimmed field without ';' that reads as YYYY-MM-DD. */
  lemma {:induction false} FeedDateOfDigits(day: string, month: string, year: string)
    requires |day| == 2 && |month| == 2 && |year| == 4 && AllDigits(day + month + year)
    ensures var date := day + month + year;
      ';' !in date && ParseFeedDate(Trim(date)) == Some(year + "-" + month + "-" + day)
  {
    var date := day + month + year;
    DigitsAreInert(date);
    TrimmedIsFixed(date, JsBlanks);
    DigitsInside(day, month, year);
    DigitsAreInert(day);
    DigitsAreInert(month);
    DigitsAreInert(year);
    FeedDateRoundTrip(day, month, year);
  }

  /** An HHMM time of digits is a trimmed field without ';', shown as HH:MM
      and read as its decimal value. */
  lemma {:induction false} FeedTimeOfDigits(hhmm: string)
    requires |hhmm| == 4 && AllDigits(hhmm)
    ensures ';' !in hhmm && FormatTime(Trim(hhmm)) == hhmm[0..2] + ":" + hhmm[2..4]
    ensures JsClockValue(Trim(hhmm)).GetOr(0) == DigitsValue(hhmm)
  {
    DigitsAreInert(hhmm);
    TrimmedIsFixed(hhmm, JsBlanks);
    ClockValueOfDigits(hhmm);
  }
}
