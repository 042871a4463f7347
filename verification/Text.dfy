/** String primitives the Rust sources rely on: `str::trim`, ASCII lowercasing,
    UTF-8 byte length and the byte order of `str` (which is code point order). */
module Text {

  datatype Option<+T> = None | Some(value: T)

  // Unicode White_Space, the class removed by `str::trim`.
  predicate IsWhitespace(c: char) {
    var n := c as int;
    || 9 <= n <= 13 || n == 32 || n == 0x85 || n == 0xA0 || n == 0x1680
    || 0x2000 <= n <= 0x200A || n == 0x2028 || n == 0x2029 || n == 0x202F
    || n == 0x205F || n == 0x3000
  }

  function TrimStart(s: string): (r: string)
    ensures |r| <= |s|
    ensures r != [] ==> !IsWhitespace(r[0])
    ensures s != [] && !IsWhitespace(s[0]) ==> r == s
    ensures r != [] && s != [] ==> r[|r| - 1] == s[|s| - 1]
  {
    if s == [] then [] else if IsWhitespace(s[0]) then TrimStart(s[1..]) else s
  }

  function TrimEnd(s: string): (r: string)
    ensures r <= s
    ensures r != [] ==> !IsWhitespace(r[|r| - 1])
    ensures s != [] && !IsWhitespace(s[|s| - 1]) ==> r == s
  {
    if s == [] then [] else if IsWhitespace(s[|s| - 1]) then TrimEnd(s[..|s| - 1]) else s
  }

  function Trim(s: string): string {
    TrimEnd(TrimStart(s))
  }

  lemma TrimIdempotent(s: string)
    ensures Trim(Trim(s)) == Trim(s)
  {
    var t := TrimStart(s);
    var u := TrimEnd(t);
    if u != [] {
      assert u[0] == t[0];
    }
  }

  lemma {:induction false} TrimNonEmpty(s: string)
    requires s != [] && !IsWhitespace(s[0])
    ensures Trim(s) != []
  {
    TrimEndNonEmpty(s);
  }

  lemma {:induction false} TrimEndNonEmpty(s: string)
    requires s != [] && !IsWhitespace(s[0])
    ensures TrimEnd(s) != []
  {
    if IsWhitespace(s[|s| - 1]) {
      TrimEndNonEmpty(s[..|s| - 1]);
    }
  }

  function LowerChar(c: char): char {
    if 'A' <= c <= 'Z' then (c as int + 32) as char else c
  }

  function AsciiLower(s: string): (r: string)
    ensures |r| == |s|
  {
    seq(|s|, i requires 0 <= i < |s| => LowerChar(s[i]))
  }

  function CharBytes(c: char): nat {
    var n := c as int;
    if n < 0x80 then 1 else if n < 0x800 then 2 else if n < 0x1_0000 then 3 else 4
  }

  // `str::len`: the number of UTF-8 bytes.
  function ByteLen(s: string): nat {
    if s == [] then 0 else CharBytes(s[0]) + ByteLen(s[1..])
  }

  // Strict lexicographic order.
  predicate Less(a: string, b: string) {
    b != [] && (a == [] || a[0] < b[0] || (a[0] == b[0] && Less(a[1..], b[1..])))
  }

  lemma LessIrreflexive(a: string)
    ensures !Less(a, a)
  {
  }

  lemma LessTotal(a: string, b: string)
    ensures Less(a, b) || a == b || Less(b, a)
  {
    if a != [] && b != [] && a[0] == b[0] {
      LessTotal(a[1..], b[1..]);
      assert a == [a[0]] + a[1..] && b == [b[0]] + b[1..];
    }
  }

  lemma LessTransitive(a: string, b: string, c: string)
    requires Less(a, b) && Less(b, c)
    ensures Less(a, c)
  {
    if a != [] && a[0] == b[0] == c[0] {
      LessTransitive(a[1..], b[1..], c[1..]);
    }
  }

  /** Code point order: a proper prefix comes first, and otherwise the first difference
      decides. */
  lemma {:induction false} LessMeaning(a: string, b: string)
    ensures Less(a, b)
       <==> exists i :: 0 <= i <= |a| && i < |b| && a[..i] == b[..i] && (i == |a| || a[i] < b[i])
  {
    if a != [] && b != [] && a[0] == b[0] {
      LessMeaning(a[1..], b[1..]);
      if Less(a, b) {
        var i :| 0 <= i <= |a[1..]| && i < |b[1..]| && a[1..][..i] == b[1..][..i] && (i == |a[1..]| || a[1..][i] < b[1..][i]);
        assert a[..i + 1] == [a[0]] + a[1..][..i] == b[..i + 1];
      }
      if i :| 0 <= i <= |a| && i < |b| && a[..i] == b[..i] && (i == |a| || a[i] < b[i]) {
        assert i > 0;
        assert a[1..][..i - 1] == a[..i][1..] == b[..i][1..] == b[1..][..i - 1];
      }
    } else if b != [] {
      assert a[..0] == b[..0];
    }
  }

  // All whitespace.
  predicate Blank(s: string) {
    forall i :: 0 <= i < |s| ==> IsWhitespace(s[i])
  }

  // How many characters are taken off the front.
  function Leading(s: string): (n: nat)
    ensures n <= |s|
  {
    if s != [] && IsWhitespace(s[0]) then 1 + Leading(s[1..]) else 0
  }

  lemma {:induction false} TrimStartMeaning(s: string)
    ensures TrimStart(s) == s[Leading(s)..] && Blank(s[..Leading(s)])
  {
    if s != [] && IsWhitespace(s[0]) {
      TrimStartMeaning(s[1..]);
      forall i | 0 <= i < Leading(s) ensures IsWhitespace(s[i]) {
        assert i > 0 ==> s[i] == s[1..][..Leading(s[1..])][i - 1];
      }
    }
  }

  lemma {:induction false} TrimEndMeaning(s: string)
    ensures Blank(s[|TrimEnd(s)|..])
  {
    if s != [] && IsWhitespace(s[|s| - 1]) {
      TrimEndMeaning(s[..|s| - 1]);
      var n := |TrimEnd(s)|;
      forall i | n <= i < |s| ensures IsWhitespace(s[i]) {
        assert i < |s| - 1 ==> s[i] == s[..|s| - 1][n..][i - n];
      }
    }
  }

  lemma TrimmedEnds(s: string)
    ensures Trim(s) != [] ==> !IsWhitespace(Trim(s)[0]) && !IsWhitespace(Trim(s)[|Trim(s)| - 1])
  {
    var rest := TrimStart(s);
    assert TrimEnd(rest) != [] ==> TrimEnd(rest)[0] == rest[0];
  }

  // The whitespace taken off in front and behind.
  function Cut(s: string): (string, string) {
    var rest := TrimStart(s);
    (s[..Leading(s)], rest[|TrimEnd(rest)|..])
  }

  lemma PartsJoin(s: string, n: nat, t: string)
    requires n <= |s| && t <= s[n..]
    ensures s == s[..n] + t + s[n..][|t|..]
  {
    assert s == s[..n] + s[n..] && s[n..] == t + s[n..][|t|..];
  }

  /** Trimming takes whitespace off both ends, all of it and nothing else. */
  lemma TrimMeaning(s: string)
    ensures var (front, back) := Cut(s); s == front + Trim(s) + back && Blank(front) && Blank(back)
    ensures Trim(s) != [] ==> !IsWhitespace(Trim(s)[0]) && !IsWhitespace(Trim(s)[|Trim(s)| - 1])
  {
    var rest := TrimStart(s);
    TrimStartMeaning(s);
    TrimEndMeaning(rest);
    PartsJoin(s, Leading(s), TrimEnd(rest));
    TrimmedEnds(s);
  }
}
