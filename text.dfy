/**
 * String primitives of the three runtimes the school system is written for
 * (JavaScript in the browser, PHP on the server, Python in the smoke scripts),
 * stated once here and used by every other module.
 *
 * Strings are sequences of code points. JavaScript counts UTF-16 units and PHP
 * counts bytes; for the ASCII data these feeds carry the lengths agree.
 */
module Text {
  import opened Wrappers

  // ---------------------------------------------------------------- trimming

  /** What JavaScript's `String.prototype.trim` removes: the ECMAScript
      WhiteSpace and LineTerminator code points. It is also what the regular
      expression class `\s` matches and what `parseInt` skips. */
  const JsBlanks: set<char> :=
    {'\t', '\n', '\U{B}', '\U{C}', '\r', ' ', '\U{A0}', '\U{1680}',
     '\U{2000}', '\U{2001}', '\U{2002}', '\U{2003}', '\U{2004}', '\U{2005}',
     '\U{2006}', '\U{2007}', '\U{2008}', '\U{2009}', '\U{200A}',
     '\U{2028}', '\U{2029}', '\U{202F}', '\U{205F}', '\U{3000}', '\U{FEFF}'}

  /** What PHP's `trim` removes by default: " \t\n\r\0\x0B". */
  const PhpTrimBlanks: set<char> := {' ', '\t', '\n', '\r', '\0', '\U{B}'}

  /** The leading white space PHP skips when it casts a string to int: " \t\n\r\v\f". */
  const PhpNumericBlanks: set<char> := {' ', '\t', '\n', '\r', '\U{B}', '\U{C}'}

  /** Neither end of the string is white space. */
  predicate Trimmed(s: string, b: set<char>)
  {
    s == [] || (s[0] !in b && s[|s| - 1] !in b)
  }

  function TrimLeft(s: string, b: set<char>): (r: string)
    ensures |r| <= |s| && r == s[|s| - |r|..]
    ensures r == [] || r[0] !in b
  {
    if s != [] && s[0] in b then TrimLeft(s[1..], b) else s
  }

  function TrimRight(s: string, b: set<char>): (r: string)
    ensures |r| <= |s| && r == s[..|r|]
    ensures r == [] || r[|r| - 1] !in b
  {
    if s != [] && s[|s| - 1] in b then TrimRight(s[..|s| - 1], b) else s
  }

  function TrimWith(s: string, b: set<char>): string
  {
    TrimRight(TrimLeft(s, b), b)
  }

  /** JavaScript `s.trim()`. */
  function Trim(s: string): string
  {
    TrimWith(s, JsBlanks)
  }

  /** PHP `trim($s)`. */
  function PhpTrim(s: string): string
  {
    TrimWith(s, PhpTrimBlanks)
  }

  /** A string that neither starts nor ends with white space is left alone by trimming. */
  lemma {:induction false} TrimmedIsFixed(s: string, b: set<char>)
    requires Trimmed(s, b)
    ensures TrimWith(s, b) == s
  {
  }

  // --------------------------------------------------------- split and join

  /** JavaScript `s.split(c)` and PHP `explode(c, $s)` for a one-character separator. */
  function Split(s: string, sep: char): (parts: seq<string>)
    ensures |parts| >= 1
    ensures forall i :: 0 <= i < |parts| ==> sep !in parts[i]
  {
    if s == [] then [[]]
    else
      var rest := Split(s[1..], sep);
      if s[0] == sep then [[]] + rest else [[s[0]] + rest[0]] + rest[1..]
  }

  /** JavaScript `parts.join(sep)`. */
  function Join(parts: seq<string>, sep: string): string
  {
    if |parts| == 0 then []
    else if |parts| == 1 then parts[0]
    else parts[0] + sep + Join(parts[1..], sep)
  }

  /** A join starts with its first part, followed by the separator when more follow. */
  lemma {:induction false} JoinStarts(parts: seq<string>, sep: string)
    requires |parts| >= 1
    ensures StartsWith(Join(parts, sep), parts[0])
    ensures |parts| > 1 ==> Join(parts, sep) == parts[0] + sep + Join(parts[1..], sep)
  {
    if |parts| > 1 {
      assert (parts[0] + sep + Join(parts[1..], sep))[..|parts[0]|] == parts[0];
    }
  }
  /** Splitting and joining again with the same separator gives the string back. */
  lemma {:induction false} JoinSplit(s: string, sep: char)
    ensures Join(Split(s, sep), [sep]) == s
  {
    if s != [] {
      JoinSplit(s[1..], sep);
      var rest := Split(s[1..], sep);
      if s[0] == sep {
        assert Split(s, sep) == [[]] + rest;
      } else {
        assert Split(s, sep) == [[s[0]] + rest[0]] + rest[1..];
        if |rest| > 1 {
          assert rest == [rest[0]] + rest[1..];
        }
      }
    }
  }

  lemma {:induction false} SplitWithoutSeparator(s: string, sep: char)
    requires sep !in s
    ensures Split(s, sep) == [s]
  {
    if s != [] {
      SplitWithoutSeparator(s[1..], sep);
      assert [s[0]] + s[1..] == s;
    }
  }

  /** The first separator ends the first part. */
  lemma {:induction false} SplitAtFirst(a: string, sep: char, b: string)
    requires sep !in a
    ensures Split(a + [sep] + b, sep) == [a] + Split(b, sep)
  {
    if a == [] {
      assert a + [sep] + b == [sep] + b;
    } else {
      assert (a + [sep] + b)[1..] == a[1..] + [sep] + b;
      SplitAtFirst(a[1..], sep, b);
      assert [a[0]] + a[1..] == a;
    }
  }

  lemma {:induction false} JoinThree(a: string, b: string, c: string, sep: string)
    ensures Join([a, b, c], sep) == a + sep + b + sep + c
  {
    assert [a, b, c][1..] == [b, c];
    assert [b, c][1..] == [c];
    assert Join([b, c], sep) == b + sep + c;
    assert a + sep + (b + sep + c) == a + sep + b + sep + c;
  }

  /** Joining parts that do not contain the separator and splitting again gives the parts back. */
  lemma {:induction false} SplitJoin(parts: seq<string>, sep: char)
    requires |parts| >= 1
    requires forall i :: 0 <= i < |parts| ==> sep !in parts[i]
    ensures Split(Join(parts, [sep]), sep) == parts
  {
    if |parts| == 1 {
      SplitWithoutSeparator(parts[0], sep);
    } else {
      SplitJoin(parts[1..], sep);
      SplitAtFirst(parts[0], sep, Join(parts[1..], [sep]));
      assert parts == [parts[0]] + parts[1..];
    }
  }

  // ------------------------------------------------------- substring search

  predicate StartsWith(s: string, p: string)
  {
    |p| <= |s| && s[..|p|] == p
  }

  predicate EndsWith(s: string, p: string)
  {
    |p| <= |s| && s[|s| - |p|..] == p
  }

  /** JavaScript `s.includes(t)`, PHP `strpos($s, $t) !== false`: t occurs in s. */
  predicate Contains(s: string, t: string)
  {
    StartsWith(s, t) || (s != [] && Contains(s[1..], t))
  }

  /** A string occurs at the end of anything it is appended to. */
  lemma {:induction false} ContainsAppended(a: string, t: string)
    ensures Contains(a + t, t)
  {
    if a != [] {
      assert (a + t)[1..] == a[1..] + t;
      ContainsAppended(a[1..], t);
    } else {
      assert (a + t)[..|t|] == t;
    }
  }

  /** An occurrence survives appending. */
  lemma {:induction false} ContainsExtended(s: string, b: string, t: string)
    requires Contains(s, t)
    ensures Contains(s + b, t)
  {
    if StartsWith(s, t) {
      assert (s + b)[..|t|] == s[..|t|];
    } else {
      assert (s + b)[1..] == s[1..] + b;
      ContainsExtended(s[1..], b, t);
    }
  }

  /** An occurrence in a prefix is an occurrence in the whole. */
  lemma {:induction false} ContainsPrefix(s: string, r: string, t: string)
    requires StartsWith(r, s) && Contains(s, t)
    ensures Contains(r, t)
  {
    assert r == s + r[|s|..];
    ContainsExtended(s, r[|s|..], t);
  }

  /** An occurrence in a suffix is an occurrence in the whole. */
  lemma {:induction false} ContainsInSuffix(p: string, x: string, t: string)
    requires Contains(x, t)
    ensures Contains(p + x, t)
  {
    if p != [] {
      var s := p + x;
      assert s[1..] == p[1..] + x;
      ContainsInSuffix(p[1..], x, t);
      assert s != [] && Contains(s[1..], t);
    } else {
      assert p + x == x;
    }
  }

  /** JavaScript `s.replace(c, '')` with a one-character string: only the first occurrence goes. */
  function RemoveFirst(s: string, c: char): (r: string)
  {
    if s == [] then []
    else if s[0] == c then s[1..]
    else [s[0]] + RemoveFirst(s[1..], c)
  }

  /** PHP `str_replace(c, '', $s)`: every occurrence goes. */
  function RemoveAll(s: string, c: char): (r: string)
    ensures c !in r
  {
    if s == [] then []
    else if s[0] == c then RemoveAll(s[1..], c)
    else [s[0]] + RemoveAll(s[1..], c)
  }

  // ------------------------------------------------------------ lower case

  /** Lower-casing of the ASCII and Latin-1 capitals, the letters Portuguese uses. */
  function LowerChar(c: char): char
  {
    if 'A' <= c <= 'Z' || ('\U{C0}' <= c <= '\U{DE}' && c != '\U{D7}') then (c as int + 32) as char else c
  }

  /** JavaScript `toLowerCase()` and PHP `mb_strtolower` on Portuguese text. */
  function ToLower(s: string): (r: string)
  {
    seq(|s|, i requires 0 <= i < |s| => LowerChar(s[i]))
  }

  predicate IsAsciiLetter(c: char)
  {
    'a' <= c <= 'z' || 'A' <= c <= 'Z'
  }

  // ----------------------------------------------------------------- digits

  predicate IsDigit(c: char)
  {
    '0' <= c <= '9'
  }

  predicate AllDigits(s: string)
  {
    forall i :: 0 <= i < |s| ==> IsDigit(s[i])
  }

  /** PHP `ctype_digit($s)`: non-empty and made of ASCII digits only. */
  predicate CtypeDigit(s: string)
  {
    s != [] && AllDigits(s)
  }

  /** PHP `empty($s)` for a string: the empty string and "0". */
  predicate PhpEmpty(s: string)
  {
    s == [] || s == "0"
  }

  /** JavaScript `s.replace(/\D/g, '')`: the digits of s, in order. */
  function DigitsOnly(s: string): (r: string)
    ensures AllDigits(r) && |r| <= |s|
  {
    if s == [] then []
    else if IsDigit(s[0]) then [s[0]] + DigitsOnly(s[1..])
    else DigitsOnly(s[1..])
  }

  function DigitValue(c: char): nat
    requires IsDigit(c)
  {
    c as int - '0' as int
  }

  function DigitChar(d: nat): (c: char)
    requires d < 10
    ensures IsDigit(c) && DigitValue(c) == d
  {
    ('0' as int + d) as char
  }

  /** The decimal value of a string of digits (leading zeros allowed). */
  function DigitsValue(s: string): nat
    requires AllDigits(s)
  {
    if s == [] then 0 else DigitsValue(s[..|s| - 1]) * 10 + DigitValue(s[|s| - 1])
  }

  /** Decimal rendering of a natural number, without leading zeros. */
  function NatToString(n: nat): (r: string)
    ensures CtypeDigit(r)
    ensures r[0] == '0' ==> n == 0 && r == "0"
  {
    if n < 10 then [DigitChar(n)] else NatToString(n / 10) + [DigitChar(n % 10)]
  }

  /** JavaScript `n.toString()` and PHP `(string)$n` for an integer. */
  function IntToString(i: int): string
  {
    if i < 0 then "-" + NatToString(-i) else NatToString(i)
  }

  /** The digits at the front of s. */
  function LeadingDigits(s: string): (r: string)
    ensures AllDigits(r) && StartsWith(s, r)
    ensures |r| < |s| ==> !IsDigit(s[|r|])
  {
    if s != [] && IsDigit(s[0]) then [s[0]] + LeadingDigits(s[1..]) else []
  }

  /** Skip leading white space, read an optional sign and then as many digits as
      there are; no digits means no number. */
  function ParseLeadingInt(s: string, b: set<char>): Option<int>
  {
    var sd := SignedDigits(s, b);
    SignedValue(sd.0, sd.1)
  }

  /** The number an optional minus sign and a run of digits stand for. */
  function SignedValue(negative: bool, ds: string): Option<int>
    requires AllDigits(ds)
  {
    if ds == [] then None
    else Some(if negative then -(DigitsValue(ds) as int) else DigitsValue(ds))
  }

  /** After the white space: whether a minus sign comes first, and the digits
      behind the optional sign. */
  function SignedDigits(s: string, b: set<char>): (r: (bool, string))
    ensures AllDigits(r.1)
  {
    var t := TrimLeft(s, b);
    var negative := t != [] && t[0] == '-';
    var body := if t != [] && (t[0] == '-' || t[0] == '+') then t[1..] else t;
    (negative, LeadingDigits(body))
  }

  /** JavaScript `parseInt(s, 10)`; None stands for NaN. */
  function ParseIntJs(s: string): Option<int>
  {
    ParseLeadingInt(s, JsBlanks)
  }

  predicate IsHexDigit(c: char)
  {
    IsDigit(c) || 'a' <= c <= 'f' || 'A' <= c <= 'F'
  }

  predicate AllHexDigits(s: string)
  {
    forall i :: 0 <= i < |s| ==> IsHexDigit(s[i])
  }

  function HexDigitValue(c: char): (v: nat)
    requires IsHexDigit(c)
    ensures v < 16
  {
    if IsDigit(c) then DigitValue(c)
    else if 'a' <= c <= 'f' then c as int - 'a' as int + 10
    else c as int - 'A' as int + 10
  }

  /** The value of hexadecimal digits, most significant first. */
  function HexValue(s: string): nat
    requires AllHexDigits(s)
  {
    if s == [] then 0 else HexValue(s[..|s| - 1]) * 16 + HexDigitValue(s[|s| - 1])
  }

  /** The longest run of hexadecimal digits at the front. */
  function LeadingHexDigits(s: string): (r: string)
    ensures AllHexDigits(r) && StartsWith(s, r)
    ensures |r| < |s| ==> !IsHexDigit(s[|r|])
  {
    if s != [] && IsHexDigit(s[0]) then [s[0]] + LeadingHexDigits(s[1..]) else []
  }

  /** "0x" or "0X" at the front. */
  predicate HexPrefixed(body: string)
  {
    |body| >= 2 && body[0] == '0' && (body[1] == 'x' || body[1] == 'X')
  }

  /** What follows the white space and the optional sign. */
  function SignedBody(s: string, b: set<char>): string
  {
    var t := TrimLeft(s, b);
    if t != [] && (t[0] == '-' || t[0] == '+') then t[1..] else t
  }

  /** JavaScript `parseInt(s)` without a radix: behind the white space and
      the optional sign, "0x" or "0X" switches to hexadecimal and needs at
      least one hexadecimal digit after it; otherwise it is `parseInt(s, 10)`.
      None stands for NaN. */
  function ParseIntAuto(s: string): Option<int>
  {
    var t := TrimLeft(s, JsBlanks);
    var body := SignedBody(s, JsBlanks);
    if HexPrefixed(body) then SignedHex(t != [] && t[0] == '-', LeadingHexDigits(body[2..]))
    else ParseIntJs(s)
  }

  /** The value of the hexadecimal digits with their sign; no digit is NaN. */
  function SignedHex(negative: bool, hs: string): Option<int>
    requires AllHexDigits(hs)
  {
    if hs == [] then None else Some(if negative then -(HexValue(hs) as int) else HexValue(hs))
  }

  /** PHP `(int)$s`: the leading integer, 0 when there is none. */
  function PhpIntCast(s: string): int
  {
    ParseLeadingInt(s, PhpNumericBlanks).GetOr(0)
  }

  /** The registration with its leading zeros removed, keeping one digit. */
  function StripLeadingZeros(s: string): (r: string)
    requires CtypeDigit(s)
    ensures CtypeDigit(r) && EndsWith(s, r)
    ensures r[0] == '0' ==> r == "0"
  {
    if |s| > 1 && s[0] == '0' then StripLeadingZeros(s[1..]) else s
  }

  lemma {:induction false} DigitsValueLeadingZero(s: string)
    requires AllDigits(s)
    ensures AllDigits("0" + s) && DigitsValue("0" + s) == DigitsValue(s)
  {
    assert forall i :: 0 <= i < |"0" + s| ==> IsDigit(("0" + s)[i]);
    if s != [] {
      var init := s[..|s| - 1];
      assert ("0" + s)[..|"0" + s| - 1] == "0" + init;
      DigitsValueLeadingZero(init);
    }
  }

  lemma {:induction false} DigitsValuePositive(s: string)
    requires CtypeDigit(s) && s[0] != '0'
    ensures DigitsValue(s) > 0
  {
    if |s| > 1 {
      DigitsValuePositive(s[..|s| - 1]);
    }
  }

  /** Reading back a rendering without leading zeros gives the same digits. */
  lemma {:induction false} NatToStringOfDigits(s: string)
    requires CtypeDigit(s) && (s[0] == '0' ==> s == "0")
    ensures NatToString(DigitsValue(s)) == s
  {
    if |s| > 1 {
      var init := s[..|s| - 1];
      DigitsValuePositive(init);
      NatToStringOfDigits(init);
      var n := DigitsValue(s);
      assert n == DigitsValue(init) * 10 + DigitValue(s[|s| - 1]);
      assert n / 10 == DigitsValue(init) && n % 10 == DigitValue(s[|s| - 1]);
      assert s == init + [s[|s| - 1]];
    }
  }

  /** Rendering a number and reading its digits back gives the number. */
  lemma {:induction false} DigitsValueOfNatToString(n: nat)
    ensures DigitsValue(NatToString(n)) == n
  {
    if n >= 10 {
      DigitsValueOfNatToString(n / 10);
      var r := NatToString(n);
      assert r[..|r| - 1] == NatToString(n / 10);
    }
  }

  lemma {:induction false} LeadingDigitsOfDigits(s: string)
    requires AllDigits(s)
    ensures LeadingDigits(s) == s
  {
    if s != [] {
      LeadingDigitsOfDigits(s[1..]);
    }
  }

  /** A digit is neither white space of any of the runtimes nor a sign. */
  lemma {:induction false} DigitIsPlain(c: char)
    requires IsDigit(c)
    ensures c !in JsBlanks && c !in PhpNumericBlanks && c != '-' && c != '+'
  {
  }

  /** Leading-integer parsing of a string of digits reads their value. */
  lemma {:induction false} ParseLeadingDigits(s: string, b: set<char>)
    requires CtypeDigit(s) && s[0] !in b && s[0] != '-' && s[0] != '+'
    ensures ParseLeadingInt(s, b) == Some(DigitsValue(s) as int)
  {
    SignedDigitsOfDigits(s, b);
  }

  /** A string of digits is read unsigned and whole. */
  lemma {:induction false} SignedDigitsOfDigits(s: string, b: set<char>)
    requires CtypeDigit(s) && s[0] !in b && s[0] != '-' && s[0] != '+'
    ensures SignedDigits(s, b) == (false, s)
  {
    assert TrimLeft(s, b) == s;
    LeadingDigitsOfDigits(s);
  }

  /** The integer form of an all-digit registration (JavaScript `parseInt(r, 10).toString()`,
      PHP `(string)(int)$r`) is the registration without its leading zeros. */
  lemma {:induction false} IntegerFormStripsZeros(s: string)
    requires CtypeDigit(s)
    ensures ParseIntJs(s) == Some(DigitsValue(s) as int)
    ensures PhpIntCast(s) == DigitsValue(s)
    ensures IntToString(DigitsValue(s)) == StripLeadingZeros(s)
  {
    DigitIsPlain(s[0]);
    ParseLeadingDigits(s, JsBlanks);
    ParseLeadingDigits(s, PhpNumericBlanks);
    StripValue(s);
    NatToStringOfDigits(StripLeadingZeros(s));
  }

  lemma {:induction false} StripValue(s: string)
    requires CtypeDigit(s)
    ensures DigitsValue(StripLeadingZeros(s)) == DigitsValue(s)
  {
    if |s| > 1 && s[0] == '0' {
      StripValue(s[1..]);
      DigitsValueLeadingZero(s[1..]);
      assert "0" + s[1..] == s;
    }
  }

  /** The leading digits stop where the digits do. */
  lemma {:induction false} LeadingDigitsStops(d: string, rest: string)
    requires AllDigits(d) && (rest == [] || !IsDigit(rest[0]))
    ensures LeadingDigits(d + rest) == d
  {
    if d != [] {
      assert (d + rest)[1..] == d[1..] + rest;
      LeadingDigitsStops(d[1..], rest);
    } else {
      assert d + rest == rest;
    }
  }

  /** parseInt reads back what toString wrote, whatever follows it from the
      first character that is not a digit. */
  lemma {:induction false} ParseIntJsOfIntToStringThen(i: int, rest: string)
    requires rest == [] || !IsDigit(rest[0])
    ensures ParseIntJs(IntToString(i) + rest) == Some(i)
  {
    var n: nat := if i < 0 then -i else i;
    var d := NatToString(n);
    DigitsValueOfNatToString(n);
    if i < 0 {
      assert IntToString(i) == "-" + d;
      assert IntToString(i) + rest == "-" + (d + rest);
      ParseNegativeDigitsThen(d, rest);
    } else {
      assert IntToString(i) == d;
      ParseDigitsThen(d, rest);
    }
  }

  /** A string that starts with a digit or a minus sign has no leading
      blank. */
  lemma {:induction false} NoLeadingBlank(s: string)
    requires s != [] && (IsDigit(s[0]) || s[0] == '-')
    ensures TrimLeft(s, JsBlanks) == s
  {
    var c := s[0];
    if c == '-' {
      assert c !in JsBlanks;
    } else {
      assert '0' <= c <= '9';
      assert c !in JsBlanks;
    }
  }

  lemma {:induction false} DigitsFirst(d: string, rest: string)
    requires CtypeDigit(d)
    ensures TrimLeft(d + rest, JsBlanks) == d + rest
  {
    var s := d + rest;
    assert s[0] == d[0];
    NoLeadingBlank(s);
  }

  /** Digits followed by something that is not a digit: parseInt reads the
      value of the digits. */
  lemma {:induction false} ParseDigitsThen(d: string, rest: string)
    requires CtypeDigit(d) && (rest == [] || !IsDigit(rest[0]))
    ensures ParseIntJs(d + rest) == Some(DigitsValue(d) as int)
  {
    var s := d + rest;
    DigitsFirst(d, rest);
    LeadingDigitsStops(d, rest);
    assert s[0] == d[0];
    assert !(s[0] == '-' || s[0] == '+');
    assert LeadingDigits(s) == d;
  }

  /** The same behind a minus sign. */
  lemma {:induction false} ParseNegativeDigitsThen(d: string, rest: string)
    requires CtypeDigit(d) && (rest == [] || !IsDigit(rest[0]))
    ensures ParseIntJs("-" + (d + rest)) == Some(-(DigitsValue(d) as int))
  {
    LeadingDigitsStops(d, rest);
    MinusIsPlain();
    ParseMinus(d + rest, JsBlanks);
  }

  lemma {:induction false} MinusIsPlain()
    ensures '-' !in JsBlanks
  {
  }

  /** Behind a leading minus sign the digits are read negated. */
  lemma {:induction false} ParseMinus(t: string, b: set<char>)
    requires '-' !in b
    ensures SignedDigits("-" + t, b) == (true, LeadingDigits(t))
  {
    var s := "-" + t;
    assert TrimLeft(s, b) == s;
    assert s[1..] == t;
  }

  /** The leading hexadecimal digits stop where the hexadecimal digits do. */
  lemma {:induction false} LeadingHexDigitsStops(h: string, rest: string)
    requires AllHexDigits(h) && (rest == [] || !IsHexDigit(rest[0]))
    ensures LeadingHexDigits(h + rest) == h
  {
    if h != [] {
      assert (h + rest)[1..] == h[1..] + rest;
      LeadingHexDigitsStops(h[1..], rest);
    } else {
      assert h + rest == rest;
    }
  }

  /** "0x" (or "0X") and hexadecimal digits: parseInt without a radix reads
      them in base 16, "0x10" as 16. */
  lemma {:induction false} ParseAutoHexThen(x: char, h: string, rest: string)
    requires x == 'x' || x == 'X'
    requires h != [] && AllHexDigits(h) && (rest == [] || !IsHexDigit(rest[0]))
    ensures ParseIntAuto(['0', x] + h + rest) == Some(HexValue(h) as int)
  {
    var s := ['0', x] + h + rest;
    assert s[0] == '0' && '0' !in JsBlanks;
    assert TrimLeft(s, JsBlanks) == s;
    assert SignedBody(s, JsBlanks) == s;
    assert s[2..] == h + rest;
    LeadingHexDigitsStops(h, rest);
    assert ParseIntAuto(s) == SignedHex(false, LeadingHexDigits(s[2..]));
  }

  /** The same behind a minus sign. */
  lemma {:induction false} ParseAutoNegativeHexThen(x: char, h: string, rest: string)
    requires x == 'x' || x == 'X'
    requires h != [] && AllHexDigits(h) && (rest == [] || !IsHexDigit(rest[0]))
    ensures ParseIntAuto("-" + (['0', x] + h + rest)) == Some(-(HexValue(h) as int))
  {
    var t := ['0', x] + h + rest;
    MinusBody(t);
    assert HexPrefixed(t) && t[2..] == h + rest;
    LeadingHexDigitsStops(h, rest);
    assert ParseIntAuto("-" + t) == SignedHex(true, LeadingHexDigits(t[2..]));
  }

  /** Behind a leading minus sign nothing is trimmed and the sign goes. */
  lemma {:induction false} MinusBody(t: string)
    ensures TrimLeft("-" + t, JsBlanks) == "-" + t
    ensures SignedBody("-" + t, JsBlanks) == t
  {
    var s := "-" + t;
    MinusIsPlain();
    assert s[0] == '-' && s[1..] == t;
  }

  /** "0x" with no hexadecimal digit after it is NaN, as "0xZ" is. */
  lemma {:induction false} ParseAutoHexWithoutDigits(x: char, rest: string)
    requires x == 'x' || x == 'X'
    requires rest == [] || !IsHexDigit(rest[0])
    ensures ParseIntAuto(['0', x] + rest) == None
  {
    var s := ['0', x] + rest;
    assert s[0] == '0' && '0' !in JsBlanks;
    assert TrimLeft(s, JsBlanks) == s;
    assert SignedBody(s, JsBlanks) == s;
    assert s[2..] == rest;
  }

  /** Decimal digits that do not open "0x": parseInt without a radix reads
      them as `parseInt(s, 10)` does; a leading zero does not mean octal. */
  lemma {:induction false} ParseAutoDigitsThen(d: string, rest: string)
    requires CtypeDigit(d) && (rest == [] || !IsDigit(rest[0]))
    requires !HexPrefixed(d + rest)
    ensures ParseIntAuto(d + rest) == Some(DigitsValue(d) as int)
  {
    var s := d + rest;
    DigitsFirst(d, rest);
    assert s[0] == d[0];
    assert SignedBody(s, JsBlanks) == s;
    ParseDigitsThen(d, rest);
  }

  /** Radix-less parseInt reads "0x10" in base 16. */
  lemma {:induction false} ParseAutoHexExample()
    ensures ParseIntAuto("0x10") == Some(16)
  {
    var h := "10";
    assert AllHexDigits(h);
    assert h[..1] == "1" && h[..1][..0] == "";
    assert HexValue(h) == 16;
    ParseAutoHexThen('x', h, "");
    assert "0x10" == ['0', 'x'] + h + "";
  }

  /** Radix-less parseInt finds no number in "0xZ". */
  lemma {:induction false} ParseAutoNaNExample()
    ensures ParseIntAuto("0xZ") == None
  {
    assert !IsHexDigit('Z');
    ParseAutoHexWithoutDigits('x', "Z");
    assert "0xZ" == ['0', 'x'] + "Z";
  }

  /** The text `parseInt(s, 10).toString()` yields, worked out on the string:
      the leading digits after blanks and sign, without leading zeros, and
      negative only when not zero. None stands for NaN. */
  function IntegerForm(s: string): Option<string>
  {
    var sd := SignedDigits(s, JsBlanks);
    SignedForm(sd.0, sd.1)
  }

  /** The text of the number an optional minus sign and a run of digits
      stand for: no leading zeros, and no sign on zero. */
  function SignedForm(negative: bool, ds: string): Option<string>
    requires AllDigits(ds)
  {
    if ds == [] then None
    else
      var z := StripLeadingZeros(ds);
      Some(if negative && z != "0" then "-" + z else z)
  }

  /** The string form agrees with parsing and printing the number. */
  lemma {:induction false} IntegerFormIsToString(s: string)
    ensures IntegerForm(s).Some? <==> ParseIntJs(s).Some?
    ensures IntegerForm(s).Some? ==> IntegerForm(s).value == IntToString(ParseIntJs(s).value)
  {
    var sd := SignedDigits(s, JsBlanks);
    SignedFormIsToString(sd.0, sd.1);
  }

  lemma {:induction false} SignedFormIsToString(negative: bool, ds: string)
    requires AllDigits(ds)
    ensures SignedForm(negative, ds).Some? <==> SignedValue(negative, ds).Some?
    ensures SignedForm(negative, ds).Some? ==>
      SignedForm(negative, ds).value == IntToString(SignedValue(negative, ds).value)
  {
    if ds != [] {
      var v := DigitsValue(ds);
      var z := StripLeadingZeros(ds);
      StripValue(ds);
      NatToStringOfDigits(z);
      assert NatToString(v) == z;
      if !negative {
        assert SignedValue(negative, ds) == Some(v as int);
        assert IntToString(v) == z;
      } else if v == 0 {
        assert z == "0";
        assert SignedValue(negative, ds) == Some(0);
        assert IntToString(0) == z;
      } else {
        assert z != "0";
        assert SignedValue(negative, ds) == Some(-(v as int));
        assert IntToString(-(v as int)) == "-" + z;
      }
    }
  }

  /** A string of digits has the integer form that drops its leading zeros. */
  lemma {:induction false} IntegerFormOfDigits(s: string)
    requires CtypeDigit(s)
    ensures IntegerForm(s) == Some(StripLeadingZeros(s))
  {
    DigitIsPlain(s[0]);
    SignedDigitsOfDigits(s, JsBlanks);
  }

  /** JavaScript `s.padStart(width, c)` with a one-character pad. */
  function PadStart(s: string, width: nat, c: char): (r: string)
    ensures |r| == if |s| >= width then |s| else width
    ensures EndsWith(r, s)
    ensures forall i :: 0 <= i < |r| - |s| ==> r[i] == c
  {
    if |s| >= width then s else seq(width - |s|, _ => c) + s
  }

  /** The number of decimal digits of the numbers the calendar uses. */
  lemma {:induction false} NatToStringLength(n: nat)
    ensures n < 10 ==> |NatToString(n)| == 1
    ensures 10 <= n < 100 ==> |NatToString(n)| == 2
    ensures 100 <= n < 1000 ==> |NatToString(n)| == 3
    ensures 1000 <= n < 10000 ==> |NatToString(n)| == 4
  {
    if n >= 10 {
      NatToStringLength(n / 10);
    }
  }

  // ------------------------------------------------------ lexicographic order

  /** Code-point lexicographic order: the stand-in for `localeCompare` and for
      comparing ISO dates. */
  predicate LexLe(a: string, b: string)
  {
    a == [] || (b != [] && (a[0] < b[0] || (a[0] == b[0] && LexLe(a[1..], b[1..]))))
  }

  lemma {:induction false} LexTotal(a: string, b: string)
    ensures LexLe(a, b) || LexLe(b, a)
  {
    if a != [] && b != [] && a[0] == b[0] {
      LexTotal(a[1..], b[1..]);
    }
  }

  lemma {:induction false} LexTransitive(a: string, b: string, c: string)
    requires LexLe(a, b) && LexLe(b, c)
    ensures LexLe(a, c)
  {
    if a != [] && b != [] && c != [] && a[0] == b[0] == c[0] {
      LexTransitive(a[1..], b[1..], c[1..]);
    }
  }
}
