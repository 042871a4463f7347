/** Schema versions `YYYY-MM-DD.rN`: the gate's parser, the looser checkers of the
    two downstream parsers, and the revision a definition root asks for. */
module Versions {
  import opened Text
  import opened Json

  const U32_MAX: nat := 0xFFFF_FFFF

  datatype Version = Version(year: nat, month: nat, day: nat, revision: nat)

  predicate IsDigit(c: char) {
    '0' <= c <= '9'
  }

  predicate AllDigits(s: string) {
    forall i :: 0 <= i < |s| ==> IsDigit(s[i])
  }

  function DigitValue(c: char): nat
    requires IsDigit(c)
  {
    c as nat - '0' as nat
  }

  function Decimal(s: string): nat
    requires AllDigits(s)
  {
    if s == [] then 0 else 10 * Decimal(s[..|s| - 1]) + DigitValue(s[|s| - 1])
  }

  // `str::parse::<u32>`, which also takes a leading plus sign.
  function ParseU32(s: string): Option<nat> {
    var digits := if s != [] && s[0] == '+' then s[1..] else s;
    if digits != [] && AllDigits(digits) && Decimal(digits) <= U32_MAX then Some(Decimal(digits)) else None
  }

  // `split_once(".r")`: the text before and after the first occurrence.
  function SplitRevision(s: string): (r: Option<(string, string)>)
    ensures r.Some? ==> r.value.0 + ".r" + r.value.1 == s
  {
    if |s| < 2 then None
    else if s[..2] == ".r" then Some(("", s[2..]))
    else
      var rest := SplitRevision(s[1..]);
      if rest.Some? then Some(([s[0]] + rest.value.0, rest.value.1)) else None
  }

  predicate Leap(year: nat) {
    year % 4 == 0 && (year % 100 != 0 || year % 400 == 0)
  }

  function DaysIn(month: nat, year: nat): nat {
    if month in {1, 3, 5, 7, 8, 10, 12} then 31
    else if month in {4, 6, 9, 11} then 30
    else if month == 2 then if Leap(year) then 29 else 28
    else 0
  }

  // ----- the gate

  // On text: ten bytes that are digits and dashes are ten characters.
  predicate DateShape(d: string) {
    |d| == 10 && d[4] == '-' && d[7] == '-' && AllDigits(d[..4]) && AllDigits(d[5..7]) && AllDigits(d[8..])
  }

  function ParseVersion(s: string): Option<Version> {
    var parts := SplitRevision(s);
    if parts.None? then None
    else
      var (date, rev) := parts.value;
      if !DateShape(date) || rev == [] || !AllDigits(rev) then None
      else
        var (y, m, d, n) := (ParseU32(date[..4]), ParseU32(date[5..7]), ParseU32(date[8..]), ParseU32(rev));
        if y.None? || m.None? || d.None? || n.None? then None
        else if d.value == 0 || d.value > DaysIn(m.value, y.value) || n.value == 0 then None
        else Some(Version(y.value, m.value, d.value, n.value))
  }

  // ----- both downstream parsers, which check and do not keep the numbers

  predicate DateAccepted(d: string) {
    && |d| == 10 && d[4] == '-' && d[7] == '-'
    && var (year, month, day) := (ParseU32(d[..4]), ParseU32(d[5..7]), ParseU32(d[8..]));
       && year.Some? && month.Some? && day.Some?
       && 1 <= month.value <= 12
       && 1 <= day.value <= DaysIn(month.value, year.value)
  }

  predicate VersionAccepted(s: string) {
    var parts := SplitRevision(s);
    && parts.Some?
    && DateAccepted(parts.value.0)
    && parts.value.1 != [] && AllDigits(parts.value.1)
    && ParseU32(parts.value.1).Some? && ParseU32(parts.value.1).value > 0
  }

  // ----- printing

  function Digit(n: nat): (c: char)
    requires n < 10
    ensures IsDigit(c) && DigitValue(c) == n
  {
    (n + '0' as int) as char
  }

  // `{:0width$}`: at least `width` digits.
  function Padded(n: nat, width: nat): (s: string)
    ensures AllDigits(s)
    decreases n, width
  {
    if n == 0 && width == 0 then []
    else Padded(n / 10, if width == 0 then 0 else width - 1) + [Digit(n % 10)]
  }

  function Print(v: Version): string {
    Padded(v.year, 4) + "-" + Padded(v.month, 2) + "-" + Padded(v.day, 2) + ".r" + Padded(v.revision, 1)
  }

  predicate IsVersion(v: Version) {
    && v.year <= 9999 && 1 <= v.day <= DaysIn(v.month, v.year) && 1 <= v.revision <= U32_MAX
  }

  lemma {:induction false} PaddedValue(n: nat, width: nat)
    ensures Decimal(Padded(n, width)) == n && |Padded(n, width)| >= width
    decreases n, width
  {
    if n != 0 || width != 0 {
      PaddedValue(n / 10, if width == 0 then 0 else width - 1);
      var s := Padded(n, width);
      assert s[..|s| - 1] == Padded(n / 10, if width == 0 then 0 else width - 1);
    }
  }

  // A number of at most `width` digits is printed with exactly `width`.
  lemma {:induction false} PaddedLength(n: nat, width: nat, bound: nat)
    requires n < bound && bound == Power10(width)
    ensures |Padded(n, width)| == width
    decreases width
  {
    if width > 0 {
      PaddedLength(n / 10, width - 1, Power10(width - 1));
    }
  }

  function Power10(k: nat): nat {
    if k == 0 then 1 else 10 * Power10(k - 1)
  }

  lemma {:induction false} SplitAt(date: string, rev: string)
    requires forall i :: 0 <= i < |date| ==> date[i] != '.'
    ensures SplitRevision(date + ".r" + rev) == Some((date, rev))
  {
    var s := date + ".r" + rev;
    if date == [] {
      assert s[..2] == ".r" && s[2..] == rev;
    } else {
      SplitAt(date[1..], rev);
      assert s[1..] == date[1..] + ".r" + rev;
      assert s[0] != '.' && s[..2] != ".r";
      assert [date[0]] + date[1..] == date;
    }
  }

  // The parts of a date of ten characters.
  lemma DateParts(y: string, m: string, d: string)
    requires |y| == 4 && |m| == 2 && |d| == 2 && AllDigits(y) && AllDigits(m) && AllDigits(d)
    ensures var date := y + "-" + m + "-" + d;
            && DateShape(date) && date[..4] == y && date[5..7] == m && date[8..] == d
            && forall i :: 0 <= i < |date| ==> date[i] != '.'
  {
    var date := y + "-" + m + "-" + d;
    assert date[..4] == y && date[5..7] == m && date[8..] == d;
  }

  lemma ParseDigits(s: string)
    requires s != [] && AllDigits(s)
    ensures ParseU32(s) == if Decimal(s) <= U32_MAX then Some(Decimal(s)) else None
  {
    assert IsDigit(s[0]);
  }

  lemma PaddedParses(n: nat, width: nat)
    requires n <= U32_MAX && (width > 0 || n > 0)
    ensures var s := Padded(n, width);
            s != [] && ParseU32(s) == Some(n) && (n < Power10(width) ==> |s| == width)
  {
    PaddedValue(n, width);
    ParseDigits(Padded(n, width));
    if n < Power10(width) {
      PaddedLength(n, width, Power10(width));
    }
  }

  lemma PartsParse(y: string, m: string, d: string, rev: string, v: Version)
    requires |y| == 4 && |m| == 2 && |d| == 2 && AllDigits(y) && AllDigits(m) && AllDigits(d) && AllDigits(rev)
    requires ParseU32(y) == Some(v.year) && ParseU32(m) == Some(v.month) && ParseU32(d) == Some(v.day)
    requires rev != [] && ParseU32(rev) == Some(v.revision) && IsVersion(v)
    ensures ParseVersion(y + "-" + m + "-" + d + ".r" + rev) == Some(v)
  {
    DateParts(y, m, d);
    SplitAt(y + "-" + m + "-" + d, rev);
  }

  /** Printing a valid date and a positive 32-bit revision, and parsing, gives the
      same numbers back. */
  lemma PrintThenParse(v: Version)
    requires IsVersion(v)
    ensures ParseVersion(Print(v)) == Some(v)
  {
    assert Power10(4) == 10000 && Power10(2) == 100;
    PaddedParses(v.year, 4);
    PaddedParses(v.month, 2);
    PaddedParses(v.day, 2);
    PaddedParses(v.revision, 1);
    PartsParse(Padded(v.year, 4), Padded(v.month, 2), Padded(v.day, 2), Padded(v.revision, 1), v);
  }

  // The Gregorian calendar up to the year 9999, and the revisions of 32 bits.
  predicate InCalendar(v: Version) {
    && v.year <= 9999 && 1 <= v.month <= 12 && 1 <= v.day
    && (|| v.day <= 28
        || (v.day == 29 && (v.month != 2 || (v.year % 4 == 0 && v.year % 100 != 0) || v.year % 400 == 0))
        || (v.day == 30 && v.month != 2)
        || (v.day == 31 && v.month in {1, 3, 5, 7, 8, 10, 12}))
    && 1 <= v.revision < 0x1_0000_0000
  }

  lemma DaysOfMonth(v: Version)
    ensures IsVersion(v) <==> InCalendar(v)
  {
    assert DaysIn(v.month, v.year) != 0 <==> 1 <= v.month <= 12;
  }

  /** Exactly the versions of the calendar survive printing and parsing. */
  lemma CalendarIff(v: Version)
    ensures ParseVersion(Print(v)) == Some(v) <==> InCalendar(v)
  {
    DaysOfMonth(v);
    if ParseVersion(Print(v)) == Some(v) {
      ParsedParts(Print(v));
    }
    if IsVersion(v) {
      PrintThenParse(v);
    }
  }

  // ----- parsing, then printing

  // A revision is written without leading zeros.
  predicate Plain(rev: string) {
    rev != [] && rev[0] != '0'
  }

  lemma {:induction false} PrintedDigits(s: string, width: nat)
    requires AllDigits(s) && width <= |s|
    ensures Padded(Decimal(s), width) == s <==> |s| == width || Plain(s)
    decreases |s|
  {
    if s != [] {
      var n := |s| - 1;
      var rest := s[..n];
      var w := if width == 0 then 0 else width - 1;
      PrintedDigits(rest, w);
      assert Decimal(s) / 10 == Decimal(rest) && Decimal(s) % 10 == DigitValue(s[n]);
      DigitOf(s[n]);
      assert s == rest + [s[n]];
      if rest == [] && s[0] == '0' {
        assert Decimal(rest) == 0;
      }
      var p := Padded(Decimal(s), width);
      if Decimal(s) != 0 || width != 0 {
        assert p == Padded(Decimal(rest), w) + [s[n]];
        assert p == s <==> Padded(Decimal(rest), w) == rest by {
          if p == s {
            assert p[..|p| - 1] == Padded(Decimal(rest), w) && s[..n] == rest;
          }
        }
      } else if Plain(s) {
        DecimalPositive(s);
      }
    }
  }

  lemma DigitOf(c: char)
    requires IsDigit(c)
    ensures Digit(DigitValue(c)) == c
  {
  }

  lemma {:induction false} DecimalPositive(s: string)
    requires AllDigits(s) && Plain(s)
    ensures Decimal(s) > 0
  {
    if |s| > 1 {
      assert s[..|s| - 1][0] == s[0];
      DecimalPositive(s[..|s| - 1]);
    }
  }

  lemma {:induction false} DecimalBelow(s: string)
    requires AllDigits(s)
    ensures Decimal(s) < Power10(|s|)
  {
    if s != [] {
      DecimalBelow(s[..|s| - 1]);
    }
  }

  // What parsing reads from each part.
  lemma ParsedParts(s: string)
    requires ParseVersion(s).Some?
    ensures SplitRevision(s).Some?
    ensures var (v, parts) := (ParseVersion(s).value, SplitRevision(s).value);
            && DateShape(parts.0) && parts.1 != [] && AllDigits(parts.1) && IsVersion(v)
            && v == Version(Decimal(parts.0[..4]), Decimal(parts.0[5..7]), Decimal(parts.0[8..]), Decimal(parts.1))
  {
    var (date, rev) := SplitRevision(s).value;
    ParseDigits(date[..4]);
    ParseDigits(date[5..7]);
    ParseDigits(date[8..]);
    ParseDigits(rev);
    DecimalBelow(date[..4]);
    assert Power10(4) == 10000;
  }

  lemma DatePrinted(date: string)
    requires DateShape(date)
    ensures date
         == Padded(Decimal(date[..4]), 4) + "-" + Padded(Decimal(date[5..7]), 2) + "-" + Padded(Decimal(date[8..]), 2)
  {
    PrintedDigits(date[..4], 4);
    PrintedDigits(date[5..7], 2);
    PrintedDigits(date[8..], 2);
  }

  lemma SuffixDecides(front: string, a: string, b: string)
    ensures front + a == front + b <==> a == b
  {
    assert (front + a)[|front|..] == a && (front + b)[|front|..] == b;
  }

  /** Parsing gives a valid version; printing it gives the text back exactly when its
      revision was written without leading zeros. */
  lemma ParseThenPrint(s: string)
    requires ParseVersion(s).Some?
    ensures IsVersion(ParseVersion(s).value)
    ensures SplitRevision(s).Some?
    ensures Print(ParseVersion(s).value) == s <==> Plain(SplitRevision(s).value.1)
  {
    ParsedParts(s);
    var (date, rev) := SplitRevision(s).value;
    DatePrinted(date);
    PrintedDigits(rev, 1);
    SuffixDecides(date + ".r", Padded(Decimal(rev), 1), rev);
  }

  // ----- the gate against the downstream checkers

  /** The gate accepts exactly what both downstream checkers accept and that has no
      plus sign. */
  lemma GateWithinCheckers(s: string)
    ensures ParseVersion(s).Some? <==> VersionAccepted(s) && '+' !in s
  {
    var parts := SplitRevision(s);
    if parts.Some? {
      var (date, rev) := parts.value;
      if rev != [] && AllDigits(rev) && |date| == 10 && date[4] == '-' && date[7] == '-' {
        var (y, m, d) := (date[..4], date[5..7], date[8..]);
        assert date == y + "-" + m + "-" + d;
        PlusFree(y);
        PlusFree(m);
        PlusFree(d);
        assert '+' in s <==> '+' in y || '+' in m || '+' in d;
      }
    }
  }

  lemma PlusFree(s: string)
    ensures ParseU32(s).Some? ==> ('+' !in s <==> AllDigits(s))
  {
    if ParseU32(s).Some? && s[0] != '+' {
      assert AllDigits(s);
    }
  }

  // A sign in front, read as a zero.
  function Unsigned(part: string): string {
    if part != [] && part[0] == '+' then ['0'] + part[1..] else part
  }

  // The year, the month and the day with their signs read as zeros.
  function UnsignedDate(s: string): string {
    if |s| < 10 then s
    else Unsigned(s[..4]) + [s[4]] + Unsigned(s[5..7]) + [s[7]] + Unsigned(s[8..10]) + s[10..]
  }

  lemma {:induction false} LeadingZero(s: string)
    requires AllDigits(s)
    ensures AllDigits(['0'] + s) && Decimal(['0'] + s) == Decimal(s)
  {
    var t := ['0'] + s;
    if s == [] {
      OneDigit(t);
    } else {
      LeadingZero(s[..|s| - 1]);
      assert t[..|t| - 1] == ['0'] + s[..|s| - 1];
    }
  }

  // A part of at least two characters, signed or not.
  lemma UnsignedParses(part: string)
    requires |part| >= 2
    ensures |Unsigned(part)| == |part| && ParseU32(part) == ParseU32(Unsigned(part))
    ensures ParseU32(part).Some? <==> AllDigits(Unsigned(part)) && Decimal(Unsigned(part)) <= U32_MAX
  {
    var u := Unsigned(part);
    if part[0] == '+' {
      if AllDigits(part[1..]) {
        LeadingZero(part[1..]);
      } else {
        assert u[1..] == part[1..];
        assert !AllDigits(u) by {
          var i :| 0 <= i < |part[1..]| && !IsDigit(part[1..][i]);
          assert u[i + 1] == part[1..][i];
        }
      }
    } else if part[0] != '+' && AllDigits(part) {
      assert part != [];
    }
  }

  lemma UnsignedParts(date: string, rest: string)
    requires |date| == 10
    ensures var u := UnsignedDate(date + rest);
            && UnsignedDate(date) + rest == u && |UnsignedDate(date)| == 10
            && UnsignedDate(date)[..4] == Unsigned(date[..4]) && UnsignedDate(date)[5..7] == Unsigned(date[5..7])
            && UnsignedDate(date)[8..] == Unsigned(date[8..])
            && UnsignedDate(date)[4] == date[4] && UnsignedDate(date)[7] == date[7]
  {
    var s := date + rest;
    assert s[..4] == date[..4] && s[5..7] == date[5..7] && s[8..10] == date[8..] && s[10..] == rest;
    assert date[8..10] == date[8..] && date[10..] == [];
  }

  // Two or four digits are a 32-bit number.
  lemma ShortParses(digits: string)
    requires 2 <= |digits| <= 4 && AllDigits(digits)
    ensures ParseU32(digits) == Some(Decimal(digits))
  {
    ParseDigits(digits);
    DecimalBelow(digits);
    assert Power10(4) == 10000 && Power10(2) == 100 && Power10(3) == 1000;
  }

  lemma PartsAccepted(y: string, m: string, d: string)
    requires |y| == 4 && |m| == 2 && |d| == 2
    ensures ParseU32(y).Some? && ParseU32(m).Some? && ParseU32(d).Some?
       <==> AllDigits(Unsigned(y)) && AllDigits(Unsigned(m)) && AllDigits(Unsigned(d))
    ensures AllDigits(Unsigned(y)) && AllDigits(Unsigned(m)) && AllDigits(Unsigned(d)) ==>
              && ParseU32(y) == ParseU32(Unsigned(y)) == Some(Decimal(Unsigned(y)))
              && ParseU32(m) == ParseU32(Unsigned(m)) == Some(Decimal(Unsigned(m)))
              && ParseU32(d) == ParseU32(Unsigned(d)) == Some(Decimal(Unsigned(d)))
  {
    UnsignedParses(y);
    UnsignedParses(m);
    UnsignedParses(d);
    if AllDigits(Unsigned(y)) { ShortParses(Unsigned(y)); }
    if AllDigits(Unsigned(m)) { ShortParses(Unsigned(m)); }
    if AllDigits(Unsigned(d)) { ShortParses(Unsigned(d)); }
  }

  lemma DateAcceptedIff(d: string)
    requires |d| == 10
    ensures DateAccepted(d)
       <==> && DateShape(UnsignedDate(d))
            && var u := UnsignedDate(d);
               1 <= Decimal(u[8..]) <= DaysIn(Decimal(u[5..7]), Decimal(u[..4]))
  {
    UnsignedParts(d, []);
    PartsAccepted(d[..4], d[5..7], d[8..]);
  }

  lemma NoDots(date: string)
    requires |date| == 10 && DateShape(UnsignedDate(date))
    ensures forall i :: 0 <= i < 10 ==> date[i] != '.' && UnsignedDate(date)[i] != '.'
  {
    UnsignedParts(date, []);
    var u := UnsignedDate(date);
    assert u[..4] == Unsigned(date[..4]) && u[5..7] == Unsigned(date[5..7]) && u[8..] == Unsigned(date[8..]);
    assert forall i :: 0 <= i < 4 ==> u[..4][i] == u[i] && date[..4][i] == date[i];
    assert forall i :: 0 <= i < 2 ==> u[5..7][i] == u[5 + i] && date[5..7][i] == date[5 + i];
    assert forall i :: 0 <= i < 2 ==> u[8..][i] == u[8 + i] && date[8..][i] == date[8 + i];
  }

  // The same date and revision, with and without signs.
  lemma SplitUnsigned(date: string, rev: string)
    requires |date| == 10 && DateShape(UnsignedDate(date))
    ensures SplitRevision(date + ".r" + rev) == Some((date, rev))
    ensures UnsignedDate(date + ".r" + rev) == UnsignedDate(date) + ".r" + rev
    ensures SplitRevision(UnsignedDate(date) + ".r" + rev) == Some((UnsignedDate(date), rev))
  {
    NoDots(date);
    UnsignedParts(date, ".r" + rev);
    assert date + ".r" + rev == date + (".r" + rev);
    assert UnsignedDate(date) + ".r" + rev == UnsignedDate(date) + (".r" + rev);
    SplitAt(date, rev);
    SplitAt(UnsignedDate(date), rev);
  }

  lemma ParsedUnsigned(date: string, rev: string)
    requires |date| == 10 && DateShape(UnsignedDate(date))
    ensures VersionAccepted(date + ".r" + rev) <==> ParseVersion(UnsignedDate(date) + ".r" + rev).Some?
  {
    var u := UnsignedDate(date);
    SplitUnsigned(date, rev);
    DateAcceptedIff(date);
    ShortParses(u[..4]);
    ShortParses(u[5..7]);
    ShortParses(u[8..]);
  }

  // The date and the revision of a text, from those of its unsigned form.
  lemma SignedParts(s: string, u: string, rev: string)
    requires |s| >= 10 && |u| == 10 && UnsignedDate(s) == u + ".r" + rev
    ensures s == s[..10] + ".r" + rev && u == UnsignedDate(s[..10])
  {
    var (date, rest) := (s[..10], s[10..]);
    assert s == date + rest;
    UnsignedParts(date, rest);
    SamePrefix(UnsignedDate(date), rest, u, ".r" + rev);
    assert u + ".r" + rev == u + (".r" + rev);
    assert date + (".r" + rev) == date + ".r" + rev;
  }

  lemma SamePrefix(a: string, b: string, c: string, d: string)
    requires a + b == c + d && |a| == |c|
    ensures a == c && b == d
  {
    assert (a + b)[..|a|] == a && (c + d)[..|c|] == c && (a + b)[|a|..] == b && (c + d)[|c|..] == d;
  }

  lemma AcceptedShape(s: string) returns (date: string, rev: string)
    requires VersionAccepted(s) || ParseVersion(UnsignedDate(s)).Some?
    ensures |date| == 10 && DateShape(UnsignedDate(date)) && s == date + ".r" + rev
  {
    if VersionAccepted(s) {
      date, rev := SplitRevision(s).value.0, SplitRevision(s).value.1;
      DateAcceptedIff(date);
    } else {
      var (u, r) := SplitRevision(UnsignedDate(s)).value;
      SignedParts(s, u, r);
      date, rev := s[..10], r;
    }
  }

  /** The checkers accept exactly the texts the gate accepts once a sign in front of the
      year, the month or the day is read as a zero. */
  lemma CheckersIff(s: string)
    ensures VersionAccepted(s) <==> ParseVersion(UnsignedDate(s)).Some?
  {
    if VersionAccepted(s) || ParseVersion(UnsignedDate(s)).Some? {
      var date, rev := AcceptedShape(s);
      SplitUnsigned(date, rev);
      ParsedUnsigned(date, rev);
    }
  }

  lemma OneDigit(s: string)
    requires |s| == 1 && AllDigits(s)
    ensures Decimal(s) == DigitValue(s[0])
  {
    assert s[..0] == [];
  }

  lemma SignedPart(part: string)
    requires |part| == 2 && part[0] == '+' && '1' <= part[1] <= '9'
    ensures ParseU32(part).Some? && 1 <= ParseU32(part).value <= 9
  {
    OneDigit(part[1..]);
  }

  lemma SignedDate(date: string, y: string, m: string, d: string)
    requires |y| == 4 && AllDigits(y) && |m| == 2 && |d| == 2 && date == y + "-" + m + "-" + d
    requires m[0] == d[0] == '+' && '1' <= m[1] <= '9' && '1' <= d[1] <= '9'
    ensures DateAccepted(date) && !DateShape(date)
    ensures forall i :: 0 <= i < |date| ==> date[i] != '.'
  {
    assert date[..4] == y && date[5..7] == m && date[8..] == d;
    ParseDigits(y);
    DecimalBelow(y);
    assert Power10(4) == 10000;
    SignedPart(m);
    SignedPart(d);
    assert !IsDigit(m[0]);
  }

  /** The checkers do accept more: in any year, a sign in place of a leading zero. */
  lemma CheckersAcceptSigns(y: string, m: string, d: string, rev: string)
    requires |y| == 4 && AllDigits(y) && |m| == 2 && |d| == 2
    requires m[0] == d[0] == '+' && '1' <= m[1] <= '9' && '1' <= d[1] <= '9'
    requires |rev| == 1 && '1' <= rev[0] <= '9'
    ensures var s := y + "-" + m + "-" + d + ".r" + rev;
            VersionAccepted(s) && ParseVersion(s) == None
  {
    var date := y + "-" + m + "-" + d;
    SignedDate(date, y, m, d);
    SplitAt(date, rev);
    ParseDigits(rev);
    OneDigit(rev);
  }

  // ----- the revision of a definition

  const VERSION_KEY: string := "agent_definition_schema_version"
  const STRICT: string := "2026-09-09.r1"
  const RUBRIC: string := "2026-09-19.r1"
  const THINKING: string := "2026-10-01.r1"
  const RESULT: string := "2026-10-03.r1"
  const NATIVE_ROLE: string := "2026-10-06.r1"
  const REQUEST_CHOICES: string := "2026-10-08.r1"

  datatype Revision = Legacy | Strict
  datatype RevisionError = NotAnObject | LegacyKey | MissingVersion | NotText | BadFormat | Unsupported
  datatype RevisionResult = Supported(revision: Revision) | Refused(error: RevisionError)

  // `supports_rubric`
  predicate SupportsRubric(text: string) {
    text in {RUBRIC, THINKING, RESULT, NATIVE_ROLE, REQUEST_CHOICES}
  }

  // The versions that take a declared result.
  predicate SupportsResult(text: string) {
    text in {RESULT, NATIVE_ROLE, REQUEST_CHOICES}
  }

  // The order of Rust tuples.
  predicate Before(a: Version, b: Version) {
    || a.year < b.year
    || (a.year == b.year && (a.month < b.month
        || (a.month == b.month && (a.day < b.day || (a.day == b.day && a.revision < b.revision)))))
  }

  const FIRST_STRICT: Version := Version(2026, 9, 9, 1)

  function DefinitionRevision(root: Value): RevisionResult {
    if !root.Object? then Refused(NotAnObject)
    else if Has(root.members, "version") then Refused(LegacyKey)
    else
      var value := Find(root.members, VERSION_KEY);
      if value.None? then Refused(MissingVersion)
      else if !value.value.Str? then Refused(NotText)
      else
        var parsed := ParseVersion(value.value.s);
        if parsed.None? then Refused(BadFormat)
        else if Before(parsed.value, FIRST_STRICT) then Supported(Legacy)
        else if value.value.s in {STRICT, RUBRIC, THINKING, RESULT, NATIVE_ROLE, REQUEST_CHOICES} then Supported(Strict)
        else Refused(Unsupported)
  }

  // A date as one number of eight digits.
  function DateOf(v: Version): nat {
    v.year * 10000 + v.month * 100 + v.day
  }

  /** Every refusal, by what the root holds. */
  lemma RefusedIff(root: Value)
    ensures DefinitionRevision(root) == Refused(NotAnObject) <==> !root.Object?
    ensures root.Object? ==>
              var (r, value) := (DefinitionRevision(root), Find(root.members, VERSION_KEY));
              && (r == Refused(LegacyKey) <==> Has(root.members, "version"))
              && (!Has(root.members, "version") ==>
                    && (r == Refused(MissingVersion) <==> value.None?)
                    && (r == Refused(NotText) <==> value.Some? && !value.value.Str?)
                    && (r == Refused(BadFormat) <==> value.Some? && value.value.Str? && ParseVersion(value.value.s).None?)
                    && (r == Refused(Unsupported) <==>
                          && value.Some? && value.value.Str? && ParseVersion(value.value.s).Some?
                          && DateOf(ParseVersion(value.value.s).value) >= 20260909
                          && value.value.s !in {"2026-09-09.r1", "2026-09-19.r1", "2026-10-01.r1", "2026-10-03.r1",
                                                "2026-10-06.r1", "2026-10-08.r1"}))
  {
    if root.Object? {
      var value := Find(root.members, VERSION_KEY);
      if value.Some? && value.value.Str? && ParseVersion(value.value.s).Some? {
        ParsedParts(value.value.s);
        DateNumber(ParseVersion(value.value.s).value);
      }
    }
  }

  /** Legacy means: the date, read as one number of eight digits, is below 20260909. */
  lemma LegacyIff(members: seq<Member>, text: string)
    requires !Has(members, "version") && Find(members, VERSION_KEY) == Some(Str(text))
    ensures DefinitionRevision(Object(members)) == Supported(Legacy)
       <==> && ParseVersion(text).Some?
            && DateOf(ParseVersion(text).value) < 20260909
  {
    if ParseVersion(text).Some? {
      ParsedParts(text);
      DateNumber(ParseVersion(text).value);
    }
  }

  lemma DateNumber(v: Version)
    requires IsVersion(v)
    ensures Before(v, FIRST_STRICT) <==> DateOf(v) < 20260909
  {
    DaysOfMonth(v);
  }

  lemma PaddedStep(n: nat, width: nat)
    requires width > 0
    ensures Padded(n, width) == Padded(n / 10, width - 1) + [Digit(n % 10)]
  {
  }

  lemma PaddedTwo(n: nat)
    requires n < 100
    ensures Padded(n, 2) == [Digit(n / 10), Digit(n % 10)]
  {
    PaddedStep(n, 2);
    PaddedStep(n / 10, 1);
    assert Padded(0, 0) == [];
  }

  // The year of every supported version.
  lemma PaddedYear(n: nat)
    requires n == 2026
    ensures Padded(n, 4) == "2026"
  {
    PaddedStep(n, 4);
    PaddedStep(n / 10, 3);
    PaddedTwo(n / 100);
  }

  // A supported text is the printed form of a version from the first strict one on.
  lemma SupportedText(text: string, month: nat, day: nat)
    requires (month == 9 && 9 <= day <= 30) || (month == 10 && 1 <= day <= 31)
    requires text == "2026-" + [Digit(month / 10), Digit(month % 10)] + "-" + [Digit(day / 10), Digit(day % 10)] + ".r1"
    ensures ParseVersion(text) == Some(Version(2026, month, day, 1))
  {
    var v := Version(2026, month, day, 1);
    PaddedYear(2026);
    PaddedTwo(month);
    PaddedTwo(day);
    assert Padded(1, 1) == "1";
    assert Print(v) == text;
    PrintThenParse(v);
  }

  function SupportedDate(text: string): nat {
    if text == STRICT then 20260909
    else if text == RUBRIC then 20260919
    else if text == THINKING then 20261001
    else if text == RESULT then 20261003
    else if text == NATIVE_ROLE then 20261006
    else 20261008
  }

  lemma SupportedParse(text: string)
    requires text in {STRICT, RUBRIC, THINKING, RESULT, NATIVE_ROLE, REQUEST_CHOICES}
    ensures ParseVersion(text).Some? && DateOf(ParseVersion(text).value) == SupportedDate(text)
    ensures !Before(ParseVersion(text).value, FIRST_STRICT)
  {
    if text == STRICT {
      SupportedText(text, 9, 9);
    } else if text == RUBRIC {
      SupportedText(text, 9, 19);
    } else if text == THINKING {
      SupportedText(text, 10, 1);
    } else if text == RESULT {
      SupportedText(text, 10, 3);
    } else if text == NATIVE_ROLE {
      SupportedText(text, 10, 6);
    } else {
      SupportedText(text, 10, 8);
    }
  }

  // No two supported texts are the same.
  lemma TextsDiffer()
    ensures STRICT !in {RUBRIC, THINKING, RESULT, NATIVE_ROLE, REQUEST_CHOICES}
    ensures RUBRIC !in {RESULT, NATIVE_ROLE, REQUEST_CHOICES} && THINKING !in {RESULT, NATIVE_ROLE, REQUEST_CHOICES}
  {
    assert STRICT[8] == '0' && RUBRIC[8] == '1' && THINKING[8] == '0' && RESULT[8] == '0';
    assert STRICT[9] == '9' && THINKING[9] == '1' && RESULT[9] == '3' && NATIVE_ROLE[9] == '6' && REQUEST_CHOICES[9] == '8';
    assert RUBRIC[6] == '9' && RESULT[6] == '0' && NATIVE_ROLE[6] == '0' && REQUEST_CHOICES[6] == '0';
  }

  lemma FeatureDates(text: string)
    requires text in {STRICT, RUBRIC, THINKING, RESULT, NATIVE_ROLE, REQUEST_CHOICES}
    ensures SupportsRubric(text) <==> SupportedDate(text) >= 20260919
    ensures SupportsResult(text) <==> SupportedDate(text) >= 20261003
  {
    TextsDiffer();
  }

  /** Among the supported versions, rubrics came on 2026-09-19 and declared results on
      2026-10-03, and later ones keep both. */
  lemma FeaturesSince(text: string)
    requires text in {STRICT, RUBRIC, THINKING, RESULT, NATIVE_ROLE, REQUEST_CHOICES}
    ensures ParseVersion(text).Some?
    ensures SupportsRubric(text) <==> DateOf(ParseVersion(text).value) >= 20260919
    ensures SupportsResult(text) <==> DateOf(ParseVersion(text).value) >= 20261003
  {
    SupportedParse(text);
    FeatureDates(text);
  }

  /** A root is legacy exactly when its version is a valid date and revision before
      the first strict one, and strict exactly when its version text is one of the
      six supported ones. */
  lemma RevisionMeaning(members: seq<Member>, text: string)
    requires !Has(members, "version") && Find(members, VERSION_KEY) == Some(Str(text))
    ensures var r := DefinitionRevision(Object(members));
            && (r == Supported(Legacy) <==> ParseVersion(text).Some? && Before(ParseVersion(text).value, FIRST_STRICT))
            && (r == Supported(Strict) <==> text in {STRICT, RUBRIC, THINKING, RESULT, NATIVE_ROLE, REQUEST_CHOICES})
  {
    if text in {STRICT, RUBRIC, THINKING, RESULT, NATIVE_ROLE, REQUEST_CHOICES} {
      SupportedParse(text);
    }
  }
}
