/** The handful of Python `str` operations the web front end relies on:
    `strip`, `split(',')`, `splitlines`, `lower`, the `in` substring test,
    code-point ordering of strings, and decimal rendering of integers. */
module Text {

  type String = seq<char>

  /** The characters for which `str.isspace()` holds, which are also those the
      regular-expression class `\s` matches in a `str` pattern. */
  const SpaceChars: set<char> := {
    '\t', '\n', '\U{b}', '\U{c}', '\r', '\U{1c}', '\U{1d}', '\U{1e}', '\U{1f}', ' ', '\U{85}',
    '\U{a0}', '\U{1680}', '\U{2000}', '\U{2001}', '\U{2002}', '\U{2003}', '\U{2004}', '\U{2005}',
    '\U{2006}', '\U{2007}', '\U{2008}', '\U{2009}', '\U{200a}', '\U{2028}', '\U{2029}', '\U{202f}',
    '\U{205f}', '\U{3000}'
  }

  /** Python's `str.isspace()`. */
  predicate IsSpace(c: char) {
    c in SpaceChars
  }

  predicate AllSpace(s: String) {
    forall i :: 0 <= i < |s| ==> IsSpace(s[i])
  }

  // ---------------------------------------------------------------- strip

  /** The first index at or after `i` that does not hold whitespace. */
  function SkipSpace(s: String, i: nat): (j: nat)
    requires i <= |s|
    ensures i <= j <= |s|
    ensures forall k :: i <= k < j ==> IsSpace(s[k])
    ensures j == |s| || !IsSpace(s[j])
    decreases |s| - i
  {
    if i < |s| && IsSpace(s[i]) then SkipSpace(s, i + 1) else i
  }

  /** The end of `s[lo..j]` once its trailing whitespace is cut. */
  function SkipSpaceBack(s: String, lo: nat, j: nat): (e: nat)
    requires lo <= j <= |s|
    ensures lo <= e <= j
    ensures forall k :: e <= k < j ==> IsSpace(s[k])
    ensures e == lo || !IsSpace(s[e - 1])
  {
    if lo < j && IsSpace(s[j - 1]) then SkipSpaceBack(s, lo, j - 1) else j
  }

  /** `s.lstrip()`. */
  function TrimStart(s: String): (r: String)
    ensures |r| <= |s| && r == s[|s| - |r|..]
    ensures AllSpace(s[..|s| - |r|])
    ensures r == [] || !IsSpace(r[0])
  {
    s[SkipSpace(s, 0)..]
  }

  /** Text between whitespace-only borders sits in `s` as `Strip` promises. */
  lemma SpaceBorders(s: String, lo: nat, hi: nat)
    requires lo <= hi <= |s|
    requires forall k :: 0 <= k < lo ==> IsSpace(s[k])
    requires forall k :: hi <= k < |s| ==> IsSpace(s[k])
    requires lo == |s| || !IsSpace(s[lo])
    requires hi == lo || !IsSpace(s[hi - 1])
    ensures var r := s[lo..hi];
      exists i :: 0 <= i <= |s| - |r| && s[i..i + |r|] == r && AllSpace(s[..i]) && AllSpace(s[i + |r|..])
    ensures var r := s[lo..hi];
      r == [] || (!IsSpace(r[0]) && !IsSpace(r[|r| - 1]))
  {
    var r := s[lo..hi];
    assert AllSpace(s[..lo]) && AllSpace(s[hi..]);
    assert s[lo..lo + |r|] == r;
  }

  /** `s.strip()`: the text between the leading and the trailing whitespace. */
  function Strip(s: String): (r: String)
    ensures exists i :: 0 <= i <= |s| - |r| && s[i..i + |r|] == r && AllSpace(s[..i]) && AllSpace(s[i + |r|..])
    ensures r == [] || (!IsSpace(r[0]) && !IsSpace(r[|r| - 1]))
  {
    var lo := SkipSpace(s, 0);
    var hi := SkipSpaceBack(s, lo, |s|);
    SpaceBorders(s, lo, hi);
    s[lo..hi]
  }

  /** A string without surrounding whitespace is its own strip. */
  lemma StripUnpadded(s: String)
    requires s == [] || (!IsSpace(s[0]) && !IsSpace(s[|s| - 1]))
    ensures Strip(s) == s
  {
  }

  /** Stripping is idempotent. */
  lemma StripIdempotent(s: String)
    ensures Strip(Strip(s)) == Strip(s)
  {
  }

  // ---------------------------------------------------------------- split

  /** Index of the first occurrence of `c` in `s`. */
  function FirstIndex(s: String, c: char): (i: nat)
    requires c in s
    ensures i < |s| && s[i] == c && c !in s[..i]
  {
    if s[0] == c then 0 else FirstIndex(s[1..], c) + 1
  }

  /** `sep.join(parts)` for a one-character separator. */
  function Join(parts: seq<String>, sep: char): String
    requires |parts| >= 1
  {
    if |parts| == 1 then parts[0] else parts[0] + [sep] + Join(parts[1..], sep)
  }

  /** `s.split(sep)` for a one-character separator: every occurrence of `sep`
      cuts, empty pieces are kept, and there is always at least one piece. */
  function Split(s: String, sep: char): (parts: seq<String>)
    ensures |parts| >= 1
    ensures forall i :: 0 <= i < |parts| ==> sep !in parts[i]
    ensures Join(parts, sep) == s
    decreases |s|
  {
    if sep !in s then [s]
    else
      var i := FirstIndex(s, sep);
      var rest := Split(s[i + 1..], sep);
      assert s == s[..i] + [sep] + s[i + 1..];
      assert ([s[..i]] + rest)[1..] == rest;
      [s[..i]] + rest
  }

  /** Splitting undoes joining: pieces that do not contain the separator come
      back exactly. */
  lemma {:induction false} SplitJoin(parts: seq<String>, sep: char)
    requires |parts| >= 1
    requires forall i :: 0 <= i < |parts| ==> sep !in parts[i]
    ensures Split(Join(parts, sep), sep) == parts
    decreases |parts|
  {
    if |parts| > 1 {
      var s := Join(parts, sep);
      var p := parts[0];
      assert s == p + [sep] + Join(parts[1..], sep);
      assert s[|p|] == sep;
      assert sep in s;
      assert s[..|p|] == p;
      assert FirstIndex(s, sep) == |p|;
      assert s[|p| + 1..] == Join(parts[1..], sep);
      SplitJoin(parts[1..], sep);
    } else {
      assert Join(parts, sep) == parts[0];
    }
  }

  /** A text whose split has three pieces is those pieces joined by two
      separators. */
  lemma SplitThreeFields(s: String, sep: char)
    requires |Split(s, sep)| == 3
    ensures var p := Split(s, sep); s == p[0] + [sep] + p[1] + [sep] + p[2]
  {
    var p := Split(s, sep);
    assert Join(p[2..], sep) == p[2];
    assert Join(p[1..], sep) == p[1] + [sep] + p[2];
  }

  /** Three separator-free fields joined by the separator split back into
      exactly those three fields. */
  lemma SplitOfThreeFields(a: String, b: String, c: String, sep: char)
    requires sep !in a && sep !in b && sep !in c
    ensures Split(a + [sep] + b + [sep] + c, sep) == [a, b, c]
  {
    var three := [a, b, c];
    assert Join(three[2..], sep) == c;
    assert Join(three[1..], sep) == b + [sep] + c;
    assert Join(three, sep) == a + [sep] + b + [sep] + c;
    SplitJoin(three, sep);
  }

  // ---------------------------------------------------------- splitlines

  /** The characters `str.splitlines()` treats as line boundaries. */
  predicate IsLineBreak(c: char) {
    c == '\n' || c == '\r' || c == '\U{0b}' || c == '\U{0c}' || ('\U{1c}' <= c <= '\U{1e}') ||
    c == '\U{85}' || c == '\U{2028}' || c == '\U{2029}'
  }

  function FirstBreak(s: String): (i: nat)
    ensures i <= |s|
    ensures forall j :: 0 <= j < i ==> !IsLineBreak(s[j])
    ensures i < |s| ==> IsLineBreak(s[i])
  {
    if s == [] || IsLineBreak(s[0]) then 0 else FirstBreak(s[1..]) + 1
  }

  /** `s.splitlines()`: the lines without their terminators; `\r\n` ends a
      single line, and a final terminator does not start an empty line. */
  function SplitLines(s: String): (lines: seq<String>)
    ensures forall k :: 0 <= k < |lines| ==> BreakFree(lines[k])
    ensures |lines| <= |s|
    decreases |s|
  {
    if s == [] then []
    else
      var i := FirstBreak(s);
      if i == |s| then [s]
      else
        var width := if s[i] == '\r' && i + 1 < |s| && s[i + 1] == '\n' then 2 else 1;
        var rest := SplitLines(s[i + width..]);
        assert ([s[..i]] + rest)[1..] == rest;
        [s[..i]] + rest
  }

  /** Lines written out with `\n` after each one come back from `splitlines`. */
  lemma {:induction false} SplitLinesOfTerminated(lines: seq<String>)
    requires forall k :: 0 <= k < |lines| ==> BreakFree(lines[k])
    ensures SplitLines(Terminated(lines)) == lines
  {
    if lines != [] {
      var s := Terminated(lines);
      var l := lines[0];
      assert s == l + ['\n'] + Terminated(lines[1..]);
      assert s[..|l|] == l;
      assert FirstBreak(s) == |l| by {
        FirstBreakAfter(l, s);
      }
      assert s[|l| + 1..] == Terminated(lines[1..]);
      SplitLinesOfTerminated(lines[1..]);
    }
  }

  function Terminated(lines: seq<String>): String {
    if lines == [] then [] else lines[0] + ['\n'] + Terminated(lines[1..])
  }

  lemma FirstBreakAfter(l: String, s: String)
    requires BreakFree(l)
    requires |l| < |s| && s[..|l|] == l && IsLineBreak(s[|l|])
    ensures FirstBreak(s) == |l|
  {
  }

  predicate BreakFree(s: String) {
    forall j :: 0 <= j < |s| ==> !IsLineBreak(s[j])
  }

  /** A line ended by `\r\n`, or by any one boundary character that is not a
      `\r` directly followed by `\n`, is one piece, and the rest of the text
      is split on its own. */
  lemma SplitLinesBreak(a: String, t: String, b: String)
    requires BreakFree(a)
    requires t == "\r\n" || (|t| == 1 && IsLineBreak(t[0]) && !(t[0] == '\r' && b != [] && b[0] == '\n'))
    ensures SplitLines(a + t + b) == [a] + SplitLines(b)
  {
    var s := a + t + b;
    assert s[..|a|] == a;
    assert s[|a|] == t[0];
    FirstBreakAfter(a, s);
    if t == "\r\n" {
      assert s[|a| + 1] == '\n';
      assert s[|a| + 2..] == b;
    } else {
      assert |a| + 1 < |s| ==> s[|a| + 1] == b[0];
      assert s[|a| + 1..] == b;
    }
  }

  /** An unterminated last line is a piece of its own. */
  lemma SplitLinesLast(a: String)
    requires a != [] && BreakFree(a)
    ensures SplitLines(a) == [a]
  {
    assert FirstBreak(a) == |a|;
  }

  // ---------------------------------------------------------------- lower

  /** `str.lower()` on one character, for the ASCII and Latin-1 capitals. */
  function LowerChar(c: char): char {
    if 'A' <= c <= 'Z' || ('\U{c0}' <= c <= '\U{de}' && c != '\U{d7}') then (c as int + 32) as char else c
  }

  /** `s.lower()`: character by character, length preserving. */
  function Lower(s: String): (r: String)
    ensures |r| == |s|
    ensures forall i :: 0 <= i < |s| ==> r[i] == LowerChar(s[i])
  {
    seq(|s|, i requires 0 <= i < |s| => LowerChar(s[i]))
  }

  /** Lower-casing twice is lower-casing once, and no capital survives it. */
  lemma LowerIdempotent(s: String)
    ensures Lower(Lower(s)) == Lower(s)
    ensures forall i :: 0 <= i < |s| ==> !('A' <= Lower(s)[i] <= 'Z')
  {
  }

  // ------------------------------------------------------------ substring

  predicate IsPrefix(p: String, s: String) {
    |p| <= |s| && s[..|p|] == p
  }

  /** Python's `needle in hay` for strings, scanned from the left. */
  predicate Contains(hay: String, needle: String)
    decreases |hay|
  {
    IsPrefix(needle, hay) || (hay != [] && Contains(hay[1..], needle))
  }

  /** `needle` occurs in `hay` starting at position `i`. */
  predicate OccursAt(hay: String, needle: String, i: int) {
    0 <= i && i + |needle| <= |hay| && hay[i..i + |needle|] == needle
  }

  /** The scan finds the needle exactly when it occurs at some position. */
  lemma {:induction false} ContainsIff(hay: String, needle: String)
    ensures Contains(hay, needle) <==> exists i :: OccursAt(hay, needle, i)
    decreases |hay|
  {
    assert IsPrefix(needle, hay) ==> OccursAt(hay, needle, 0);
    if hay != [] {
      ContainsIff(hay[1..], needle);
      if exists i :: OccursAt(hay, needle, i) {
        var i :| OccursAt(hay, needle, i);
        if i > 0 {
          assert hay[1..][i - 1..i - 1 + |needle|] == needle;
          assert OccursAt(hay[1..], needle, i - 1);
        }
      }
      if Contains(hay[1..], needle) {
        var i :| OccursAt(hay[1..], needle, i);
        assert hay[i + 1..i + 1 + |needle|] == needle;
        assert OccursAt(hay, needle, i + 1);
      }
    } else {
      if exists i :: OccursAt(hay, needle, i) {
        assert needle == [];
      }
    }
  }

  // ----------------------------------------------------- code-point order

  /** Python's `<` on strings: lexicographic by code point, a proper prefix
      coming first. */
  predicate Less(a: String, b: String)
    decreases |a|
  {
    if a == [] then b != []
    else if b == [] then false
    else if a[0] != b[0] then a[0] < b[0]
    else Less(a[1..], b[1..])
  }

  lemma {:induction false} LessIrreflexive(a: String)
    ensures !Less(a, a)
    decreases |a|
  {
    if a != [] {
      LessIrreflexive(a[1..]);
    }
  }

  lemma {:induction false} LessTransitive(a: String, b: String, c: String)
    requires Less(a, b) && Less(b, c)
    ensures Less(a, c)
    decreases |a|
  {
    if a != [] && b != [] && c != [] && a[0] == b[0] && b[0] == c[0] {
      LessTransitive(a[1..], b[1..], c[1..]);
    }
  }

  /** Any two strings are ordered one way or the other, or equal. */
  lemma {:induction false} LessTotal(a: String, b: String)
    ensures Less(a, b) || a == b || Less(b, a)
    decreases |a|
  {
    if a != [] && b != [] && a[0] == b[0] {
      LessTotal(a[1..], b[1..]);
      if a[1..] == b[1..] {
        assert a == [a[0]] + a[1..] && b == [b[0]] + b[1..];
      }
    }
  }

  /** Both ways round cannot hold at once. */
  lemma {:induction false} LessAsymmetric(a: String, b: String)
    requires Less(a, b)
    ensures !Less(b, a)
    decreases |a|
  {
    if a != [] && b != [] && a[0] == b[0] {
      LessAsymmetric(a[1..], b[1..]);
    }
  }

  // ---------------------------------------------------------------- digits

  predicate IsDigit(c: char) {
    '0' <= c <= '9'
  }

  predicate AllDigits(s: String) {
    forall i :: 0 <= i < |s| ==> IsDigit(s[i])
  }

  function DigitChar(d: nat): (c: char)
    requires d < 10
    ensures IsDigit(c) && c as int - '0' as int == d
  {
    ('0' as int + d) as char
  }

  function DigitValue(c: char): (d: nat)
    requires IsDigit(c)
    ensures d < 10 && DigitChar(d) == c
  {
    c as int - '0' as int
  }

  /** Python's `int(s)` on a run of ASCII digits. */
  function DigitsValue(s: String): nat
    requires AllDigits(s)
  {
    if s == [] then 0 else DigitsValue(s[..|s| - 1]) * 10 + DigitValue(s[|s| - 1])
  }

  lemma {:induction false} DigitsBound(s: String)
    requires AllDigits(s)
    ensures DigitsValue(s) < Pow10(|s|)
  {
    if s != [] {
      DigitsBound(s[..|s| - 1]);
    }
  }

  /** `str(n)` for a non-negative integer: its decimal digits, no leading zero. */
  function NatToString(n: nat): (s: String)
    ensures |s| >= 1
    ensures AllDigits(s)
    ensures |s| > 1 ==> s[0] != '0'
  {
    if n < 10 then [DigitChar(n)] else NatToString(n / 10) + [DigitChar(n % 10)]
  }

  /** Reading back the decimal rendering gives the number. */
  lemma {:induction false} NatToStringRoundTrip(n: nat)
    ensures DigitsValue(NatToString(n)) == n
  {
    var s := NatToString(n);
    if n >= 10 {
      NatToStringRoundTrip(n / 10);
      assert s[..|s| - 1] == NatToString(n / 10);
    }
  }

  /** `n` written with exactly `width` digits, zero-padded on the left, as the
      `%Y`, `%m`, `%d`, `%H`, `%M` and `%S` directives of `strftime` do. */
  function Padded(n: nat, width: nat): (s: String)
    ensures |s| == width
    ensures AllDigits(s)
  {
    if width == 0 then [] else Padded(n / 10, width - 1) + [DigitChar(n % 10)]
  }

  /** Zero padding loses nothing when the number fits the width. */
  lemma {:induction false} PaddedRoundTrip(n: nat, width: nat)
    requires n < Pow10(width)
    ensures DigitsValue(Padded(n, width)) == n
  {
    if width > 0 {
      var s := Padded(n, width);
      assert s[..|s| - 1] == Padded(n / 10, width - 1);
      PaddedRoundTrip(n / 10, width - 1);
    }
  }

  function Pow10(k: nat): (p: nat)
    ensures p >= 1
  {
    if k == 0 then 1 else 10 * Pow10(k - 1)
  }
}
