/** Character classes and string helpers shared by the models of the
    Python back end and of the browser helpers. Strings are sequences of
    Unicode code points, as Python's `str` and JavaScript's strings (for the
    ASCII text they carry here) are. */
module Text {

  /** Python's `str.isspace()`: what `\s` matches in a `str` regular
      expression and what `str.strip()` removes. */
  predicate IsSpace(c: char) {
    c == ' ' || ('\t' <= c <= '\r') || ('\U{1c}' <= c <= '\U{1f}')
    || c == '\U{85}' || c == '\U{a0}' || c == '\U{1680}'
    || ('\U{2000}' <= c <= '\U{200a}') || c == '\U{2028}' || c == '\U{2029}'
    || c == '\U{202f}' || c == '\U{205f}' || c == '\U{3000}'
  }

  /** What `.` matches in a regular expression compiled without DOTALL. */
  predicate NotNewline(c: char) { c != '\n' }

  predicate IsDigit(c: char) { '0' <= c <= '9' }

  /** Every character of `s[a..b]` satisfies `p`. */
  predicate All(s: string, a: int, b: int, p: char -> bool) {
    0 <= a <= b <= |s| && forall j :: a <= j < b ==> p(s[j])
  }

  /** The end of the longest run of `p`-characters that starts at `a`. */
  function RunEnd(s: string, a: nat, p: char -> bool): (r: nat)
    requires a <= |s|
    ensures a <= r <= |s| && All(s, a, r, p) && (r == |s| || !p(s[r]))
    decreases |s| - a
  {
    if a == |s| || !p(s[a]) then a else RunEnd(s, a + 1, p)
  }

  /** No run of `p`-characters from `a` reaches past the end RunEnd finds. */
  lemma {:induction false} RunEndIsLongest(s: string, a: nat, b: nat, p: char -> bool)
    requires All(s, a, b, p)
    ensures b <= RunEnd(s, a, p)
    decreases b - a
  {
    if a < b {
      RunEndIsLongest(s, a + 1, b, p);
    }
  }

  /** A run of `p`-characters that is followed by a non-`p` character (or the
      end of the string) ends where RunEnd says. */
  lemma RunEndExact(s: string, a: nat, b: nat, p: char -> bool)
    requires All(s, a, b, p) && (b == |s| || !p(s[b]))
    ensures b == RunEnd(s, a, p)
  {
    RunEndIsLongest(s, a, b, p);
  }

  predicate StartsWith(s: string, prefix: string) {
    |prefix| <= |s| && s[..|prefix|] == prefix
  }

  predicate EndsWithAny(s: string, chars: set<char>) {
    |s| > 0 && s[|s| - 1] in chars
  }

  /** Python's `str.strip()` with no argument. */
  function Strip(s: string): (r: string)
    ensures |r| <= |s|
    ensures r == [] || (!IsSpace(r[0]) && !IsSpace(r[|r| - 1]))
    ensures forall k :: 0 <= k < |r| ==> r[k] in s
    decreases |s|
  {
    if s == [] then []
    else if IsSpace(s[0]) then Strip(s[1..])
    else if IsSpace(s[|s| - 1]) then Strip(s[..|s| - 1])
    else s
  }

  /** Python's `s.split('\n')[-1]`: the text after the last line feed. */
  function LastLine(s: string): (r: string)
    ensures '\n' !in r
    ensures |r| <= |s| && r == s[|s| - |r|..]
    ensures |r| < |s| ==> s[|s| - |r| - 1] == '\n'
    decreases |s|
  {
    if s == [] || s[|s| - 1] == '\n' then []
    else
      var t := s[..|s| - 1];
      var p := LastLine(t);
      assert s[|s| - |p| - 1..] == t[|t| - |p|..] + [s[|s| - 1]];
      p + [s[|s| - 1]]
  }

  function DigitChar(d: nat): (c: char)
    requires d < 10
    ensures IsDigit(c)
  {
    (d + '0' as int) as char
  }

  /** The decimal numeral of `n`, as Python's `str(n)` and JavaScript's
      `n.toString()` write it. */
  function NatToString(n: nat): (r: string)
    ensures |r| >= 1
    ensures forall k :: 0 <= k < |r| ==> IsDigit(r[k])
    ensures n >= 10 ==> r[0] != '0'
    decreases n
  {
    if n < 10 then [DigitChar(n)] else NatToString(n / 10) + [DigitChar(n % 10)]
  }

  /** The value of a string of decimal digits. */
  function DigitsValue(s: string): nat
    requires forall k :: 0 <= k < |s| ==> IsDigit(s[k])
    decreases |s|
  {
    if s == [] then 0
    else
      assert IsDigit(s[|s| - 1]);
      DigitsValue(s[..|s| - 1]) * 10 + (s[|s| - 1] as int - '0' as int)
  }

  /** Reading a numeral back gives the number it was written from. */
  lemma {:induction false} NatToStringRoundTrip(n: nat)
    ensures DigitsValue(NatToString(n)) == n
  {
    if n >= 10 {
      var r := NatToString(n);
      assert r[..|r| - 1] == NatToString(n / 10);
      NatToStringRoundTrip(n / 10);
    }
  }

  /** Only decimal digits (possibly none). */
  predicate AllDigits(s: string) {
    forall k :: 0 <= k < |s| ==> IsDigit(s[k])
  }

  /** Two numerals written one after the other are digits too. */
  lemma DigitsAppend(a: string, b: string)
    requires AllDigits(a) && AllDigits(b)
    ensures AllDigits(a + b)
  {
    forall k | 0 <= k < |a + b| ensures IsDigit((a + b)[k]) {
      if k < |a| { assert (a + b)[k] == a[k]; } else { assert (a + b)[k] == b[k - |a|]; }
    }
  }

  /** Reading a numeral: the value of all but the last digit, shifted, plus
      the last digit. */
  lemma LastDigit(s: string)
    requires AllDigits(s) && s != []
    ensures AllDigits(s[..|s| - 1])
    ensures DigitsValue(s) == DigitsValue(s[..|s| - 1]) * 10 + (s[|s| - 1] as int - '0' as int)
  {
  }

  /** The position of the first `c` in `s` (Python's `s.index(c)`). */
  function IndexOf(s: string, c: char): (i: nat)
    requires c in s
    ensures i < |s| && s[i] == c && c !in s[..i]
  {
    if s[0] == c then 0
    else
      var j := IndexOf(s[1..], c);
      assert s[1..][..j] == s[1..j + 1];
      j + 1
  }

  /** The first occurrence of `c` is the one with none before it. */
  lemma {:induction false} IndexOfUnique(s: string, c: char, j: nat)
    requires j < |s| && s[j] == c && c !in s[..j]
    ensures IndexOf(s, c) == j
  {
    if j > 0 {
      assert s[..j][0] == s[0];
      assert s[1..][..j - 1] == s[1..j];
      IndexOfUnique(s[1..], c, j - 1);
    }
  }

  /** `str(i)` for any Python or JavaScript integer. */
  function IntToString(i: int): (r: string)
    ensures |r| >= 1
  {
    if i < 0 then "-" + NatToString(-i) else NatToString(i)
  }

  /** ASCII letters to upper case; every other character unchanged. */
  function AsciiUpper(s: string): (r: string)
    ensures |r| == |s|
    ensures forall k :: 0 <= k < |s| ==> (if 'a' <= s[k] <= 'z' then r[k] as int == s[k] as int - 32 else r[k] == s[k])
  {
    seq(|s|, k requires 0 <= k < |s| => if 'a' <= s[k] <= 'z' then (s[k] as int - 32) as char else s[k])
  }

  /** Python's `sep.join(parts)`. */
  function JoinWith(sep: string, parts: seq<string>): (r: string)
    ensures |parts| == 0 ==> r == ""
    ensures |parts| == 1 ==> r == parts[0]
    decreases |parts|
  {
    if |parts| == 0 then ""
    else if |parts| == 1 then parts[0]
    else JoinWith(sep, parts[..|parts| - 1]) + sep + parts[|parts| - 1]
  }
}

/** The Option type used for dictionary keys that may be absent and for
    search results. */
module Wrappers {
  datatype Option<+T> = None | Some(value: T) {
    function GetOr(default: T): T {
      match this
      case Some(v) => v
      case None => default
    }
  }
}
