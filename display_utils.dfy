/** The display helpers of `static/js/utils.js`: a duration in seconds as
    `H:MM:SS` or `M:SS`, and a `YYYYMMDD` upload date as `YYYY/MM/DD`.
    Durations are integers; JavaScript's `%` keeps the sign of its left
    operand and `Math.floor` rounds down, and both are written out. */
module DisplayUtils {
  import opened Text
  import opened Wrappers
  import opened Lists

  /** JavaScript's `a % b` for a positive `b`: the remainder has the sign
      of `a` and is smaller than `b` in size. */
  function JsRem(a: int, b: int): (r: int)
    requires b > 0
    ensures -b < r < b
    ensures a >= 0 ==> r == a % b
    ensures a <= 0 ==> r <= 0
    ensures (a - r) % b == 0
  {
    if a >= 0 then
      ModUnique(a - a % b, b, a / b, 0);
      a % b
    else
      var m := -a;
      ModUnique(a + m % b, b, -(m / b), 0);
      -(m % b)
  }

  /** Euclidean division leaves one remainder only. */
  lemma ModUnique(x: int, b: int, q: int, r: int)
    requires b > 0 && 0 <= r < b && x == b * q + r
    ensures x % b == r
  {
    var q', r' := x / b, x % b;
    assert b * (q - q') == r' - r;
    if q > q' {
      NotBelowDivisor(b, q - q');
    } else if q < q' {
      NotBelowDivisor(b, q' - q);
    }
  }

  lemma NotBelowDivisor(b: int, k: int)
    requires b > 0 && k >= 1
    ensures b * k >= b
  {
  }

  /** `n.toString().padStart(2, '0')`. */
  function PadTwo(n: int): (r: string)
    ensures |r| >= 2
  {
    var t := IntToString(n);
    if |t| >= 2 then t else "0" + t
  }

  /** The hours, minutes and seconds `formatDuration` computes. */
  datatype Clock = Clock(hours: int, minutes: int, secs: int)

  /** `Math.floor(s / 3600)`, `Math.floor((s % 3600) / 60)` and `s % 60`. */
  function ClockOf(seconds: int): Clock {
    Clock(seconds / 3600, JsRem(seconds, 3600) / 60, JsRem(seconds, 60))
  }

  /** `formatDuration`; `None` stands for `null` or `undefined`. */
  function FormatDuration(seconds: Option<int>): (r: string)
    ensures r == "" <==> seconds.None? || seconds.value == 0
  {
    if seconds.None? || seconds.value == 0 then ""
    else
      var c := ClockOf(seconds.value);
      if c.hours > 0 then IntToString(c.hours) + ":" + PadTwo(c.minutes) + ":" + PadTwo(c.secs)
      else IntToString(c.minutes) + ":" + PadTwo(c.secs)
  }

  /** For a non-negative duration the three parts are the hours, the
      minutes below 60 and the seconds below 60 that add up to it. */
  lemma ClockSplits(n: nat)
    ensures var c := ClockOf(n);
            c.hours >= 0 && 0 <= c.minutes < 60 && 0 <= c.secs < 60
            && c.hours * 3600 + c.minutes * 60 + c.secs == n
  {
    var h, r := n / 3600, n % 3600;
    var m, s := r / 60, r % 60;
    assert n == h * 3600 + m * 60 + s;
    assert n == (h * 60 + m) * 60 + s;
    assert n % 60 == s;
  }

  /** A string of decimal digits. */
  predicate Numeral(s: string) {
    s != [] && forall k | 0 <= k < |s| :: IsDigit(s[k])
  }

  /** `r.split(':')`. */
  function SplitColons(r: string): (fields: seq<string>)
    ensures |fields| >= 1
    decreases |r|
  {
    if ':' !in r then [r]
    else
      var i := IndexOf(r, ':');
      [r[..i]] + SplitColons(r[i + 1..])
  }

  /** Reads the fields of `H:MM:SS` or `M:SS` as seconds; anything else is
      `None`. */
  function ReadFields(f: seq<string>): (v: Option<int>)
    ensures v.Some? ==> v.value >= 0
  {
    if |f| == 3 && Numeral(f[0]) && |f[1]| == 2 && Numeral(f[1]) && |f[2]| == 2 && Numeral(f[2]) then
      Some(DigitsValue(f[0]) * 3600 + DigitsValue(f[1]) * 60 + DigitsValue(f[2]))
    else if |f| == 2 && Numeral(f[0]) && |f[1]| == 2 && Numeral(f[1]) then
      Some(DigitsValue(f[0]) * 60 + DigitsValue(f[1]))
    else None
  }

  /** Reads `H:MM:SS` or `M:SS` back into seconds. */
  function ReadClock(r: string): (v: Option<int>)
    ensures v.Some? ==> v.value >= 0
  {
    ReadFields(SplitColons(r))
  }

  /** A numeral holds no `:`. */
  lemma NumeralNoColon(a: string)
    requires Numeral(a)
    ensures ':' !in a
  {
    forall k | 0 <= k < |a| ensures a[k] != ':' {
      assert IsDigit(a[k]);
    }
  }

  /** Splitting `a:b` for a numeral `a` gives `a` and the fields of `b`. */
  lemma SplitAfterNumeral(a: string, b: string)
    requires Numeral(a)
    ensures SplitColons(a + ":" + b) == [a] + SplitColons(b)
  {
    var s := a + ":" + b;
    assert s[..|a|] == a;
    NumeralNoColon(a);
    IndexOfUnique(s, ':', |a|);
    assert s[|a| + 1..] == b;
  }

  /** `H:MM:SS` splits into its three fields. */
  lemma SplitLong(h: string, m: string, s: string)
    requires Numeral(h) && Numeral(m) && Numeral(s)
    ensures SplitColons(h + ":" + m + ":" + s) == [h, m, s]
  {
    var tail := m + ":" + s;
    assert h + ":" + m + ":" + s == h + ":" + tail;
    SplitAfterNumeral(h, tail);
    assert SplitColons(tail) == [m, s] by {
      SplitAfterNumeral(m, s);
      NumeralNoColon(s);
    }
  }

  /** `H:MM:SS` reads back as hours, minutes and seconds. */
  lemma ReadClockLong(h: string, m: string, s: string, total: int)
    requires Numeral(h) && |m| == 2 && Numeral(m) && |s| == 2 && Numeral(s)
    requires total == DigitsValue(h) * 3600 + DigitsValue(m) * 60 + DigitsValue(s)
    ensures ReadClock(h + ":" + m + ":" + s) == Some(total)
  {
    SplitLong(h, m, s);
    ReadThreeFields(h, m, s, total);
  }

  /** The three fields of `H:MM:SS` give hours, minutes and seconds. */
  lemma ReadThreeFields(h: string, m: string, s: string, total: int)
    requires Numeral(h) && |m| == 2 && Numeral(m) && |s| == 2 && Numeral(s)
    requires total == DigitsValue(h) * 3600 + DigitsValue(m) * 60 + DigitsValue(s)
    ensures ReadFields([h, m, s]) == Some(total)
  {
    var f := [h, m, s];
    assert |f| == 3 && f[0] == h && f[1] == m && f[2] == s;
  }

  /** `M:SS` reads back as minutes and seconds. */
  lemma ReadClockShort(m: string, s: string, total: int)
    requires Numeral(m) && |s| == 2 && Numeral(s)
    requires total == DigitsValue(m) * 60 + DigitsValue(s)
    ensures ReadClock(m + ":" + s) == Some(total)
  {
    var r := m + ":" + s;
    assert SplitColons(r) == [m, s] by {
      SplitAfterNumeral(m, s);
      NumeralNoColon(s);
    }
    assert ReadFields([m, s]) == Some(total);
  }

  /** A number below 60 is written with two digits that read back as it. */
  lemma PadTwoSmall(k: nat)
    requires k < 60
    ensures |PadTwo(k)| == 2 && Numeral(PadTwo(k)) && DigitsValue(PadTwo(k)) == k
  {
    NatToStringRoundTrip(k);
    var t := NatToString(k);
    if k < 10 {
      assert t == [DigitChar(k)];
      assert PadTwo(k) == "0" + t;
      assert ("0" + t)[..1] == "0";
    } else {
      assert t == NatToString(k / 10) + [DigitChar(k % 10)];
    }
  }

  /** The parts of a duration, as ClockSplits states them. */
  predicate SplitsInto(n: int, c: Clock) {
    c.hours >= 0 && 0 <= c.minutes < 60 && 0 <= c.secs < 60 && c.hours * 3600 + c.minutes * 60 + c.secs == n
  }

  /** From one hour on, `H:MM:SS` reads back as the duration. */
  lemma LongReadsBack(n: int)
    requires n >= 3600
    ensures ReadClock(FormatDuration(Some(n))) == Some(n)
  {
    var c := ClockOf(n);
    assert SplitsInto(n, c) && c.hours > 0 by {
      ClockSplits(n);
    }
    var hh, mm, ss := NatToString(c.hours), PadTwo(c.minutes), PadTwo(c.secs);
    assert FormatDuration(Some(n)) == hh + ":" + mm + ":" + ss;
    assert Numeral(hh) && DigitsValue(hh) == c.hours by { NatToStringRoundTrip(c.hours); }
    assert |mm| == 2 && Numeral(mm) && DigitsValue(mm) == c.minutes by { PadTwoSmall(c.minutes); }
    assert |ss| == 2 && Numeral(ss) && DigitsValue(ss) == c.secs by { PadTwoSmall(c.secs); }
    ReadClockLong(hh, mm, ss, n);
  }

  /** Below one hour, `M:SS` reads back as the duration. */
  lemma ShortReadsBack(n: int)
    requires 0 < n < 3600
    ensures ReadClock(FormatDuration(Some(n))) == Some(n)
  {
    var c := ClockOf(n);
    assert SplitsInto(n, c) && c.hours == 0 by {
      ClockSplits(n);
    }
    var mm, ss := NatToString(c.minutes), PadTwo(c.secs);
    assert FormatDuration(Some(n)) == mm + ":" + ss;
    assert Numeral(mm) && DigitsValue(mm) == c.minutes by { NatToStringRoundTrip(c.minutes); }
    assert |ss| == 2 && Numeral(ss) && DigitsValue(ss) == c.secs by { PadTwoSmall(c.secs); }
    ReadClockShort(mm, ss, n);
  }

  /** Every positive duration reads back from its text. */
  lemma DurationReadsBack(n: int)
    requires n > 0
    ensures ReadClock(FormatDuration(Some(n))) == Some(n)
  {
    if n >= 3600 {
      LongReadsBack(n);
    } else {
      ShortReadsBack(n);
    }
  }

  /** From one hour on the text is `H:MM:SS`, with two-digit minutes and
      seconds; below it is `M:SS`, with a single colon. */
  lemma DurationShape(n: int)
    requires n > 0
    ensures var r := FormatDuration(Some(n));
            (n >= 3600 ==> |r| >= 7 && r[|r| - 3] == ':' && r[|r| - 6] == ':')
            && (n < 3600 ==> |r| >= 4 && r[|r| - 3] == ':' && ':' !in r[..|r| - 3])
  {
    var c := ClockOf(n);
    ClockSplits(n);
    PadTwoSmall(c.minutes);
    PadTwoSmall(c.secs);
    var ss := PadTwo(c.secs);
    if c.hours <= 0 {
      var m := NatToString(c.minutes);
      var r := m + ":" + ss;
      assert r[..|r| - 3] == m;
      assert Numeral(m);
      NumeralNoColon(m);
    }
  }

  /** A negative duration is shown in the `M:SS` form with JavaScript's
      signed remainders, and never reads back as itself. */
  lemma NegativeDuration(n: int)
    requires n < 0
    ensures ClockOf(n).hours < 0
    ensures ReadClock(FormatDuration(Some(n))) != Some(n)
  {
  }

  // ---------------------------------------------------------------------
  // Upload dates

  function Min(a: int, b: int): int { if a <= b then a else b }

  /** JavaScript's `s.slice(a, b)` for `0 <= a <= b`: both ends are clamped
      to the length. */
  function Slice(s: string, a: nat, b: nat): (r: string)
    requires a <= b
    ensures r == s[Min(a, |s|)..Min(b, |s|)]
  {
    s[Min(a, |s|)..Min(b, |s|)]
  }

  /** `formatUploadDate` on a string or `null` (`None`). */
  function FormatUploadDate(date: Option<string>): (r: string)
    ensures r == "" <==> date.None? || date.value == ""
  {
    if date.None? || date.value == "" then ""
    else
      var s := date.value;
      Slice(s, 0, 4) + "/" + Slice(s, 4, 6) + "/" + Slice(s, 6, 8)
  }

  predicate NotSlash(c: char) { c != '/' }

  /** The date keeps its first eight characters, in order, with a slash
      after the year and after the month: an eight-character `YYYYMMDD`
      becomes `YYYY/MM/DD`. */
  lemma UploadDateLayout(s: string)
    requires s != ""
    ensures var r := FormatUploadDate(Some(s));
            |r| == Min(|s|, 8) + 2
            && r[Min(|s|, 4)] == '/' && r[Min(|s|, 6) + 1] == '/'
            && (|s| >= 8 ==> r[..4] == s[..4] && r[5..7] == s[4..6] && r[8..] == s[6..8])
  {
  }

  /** Deleting the slashes from the result of a date without slashes gives
      back its first eight characters. */
  lemma UploadDateRoundTrip(s: string)
    requires s != "" && '/' !in s
    ensures Keep(FormatUploadDate(Some(s)), NotSlash) == s[..Min(|s|, 8)]
  {
    var y, m, d := Slice(s, 0, 4), Slice(s, 4, 6), Slice(s, 6, 8);
    assert y + m + d == s[..Min(|s|, 8)];
    assert '/' !in y && '/' !in m && '/' !in d by {
      SliceNoSlash(s, 0, 4);
      SliceNoSlash(s, 4, 6);
      SliceNoSlash(s, 6, 8);
    }
    KeepJoined(y, m, d);
  }

  /** A slice of a text without slashes has none. */
  lemma SliceNoSlash(s: string, a: nat, b: nat)
    requires a <= b && '/' !in s
    ensures '/' !in Slice(s, a, b)
  {
    var t := Slice(s, a, b);
    forall k | 0 <= k < |t| ensures t[k] != '/' {
      assert t[k] == s[Min(a, |s|) + k];
    }
  }

  /** Deleting the two slashes of `y/m/d` gives `ymd` back when the parts
      hold none. */
  lemma KeepJoined(y: string, m: string, d: string)
    requires '/' !in y && '/' !in m && '/' !in d
    ensures Keep(y + "/" + m + "/" + d, NotSlash) == y + m + d
  {
    var slash := "/";
    assert Keep(slash, NotSlash) == [] by {
      assert slash[..0] == [];
    }
    var a := y + slash;
    assert Keep(a, NotSlash) == y by {
      KeepAppend(y, slash, NotSlash);
      KeepNoSlash(y);
    }
    var b := a + m;
    assert Keep(b, NotSlash) == y + m by {
      KeepAppend(a, m, NotSlash);
      KeepNoSlash(m);
    }
    var c := b + slash;
    assert Keep(c, NotSlash) == y + m by {
      KeepAppend(b, slash, NotSlash);
    }
    assert Keep(c + d, NotSlash) == y + m + d by {
      KeepAppend(c, d, NotSlash);
      KeepNoSlash(d);
    }
  }

  /** A text without slashes passes the slash filter whole. */
  lemma {:induction false} KeepNoSlash(t: string)
    requires '/' !in t
    ensures Keep(t, NotSlash) == t
    decreases |t|
  {
    if t != [] {
      var init := t[..|t| - 1];
      assert t == init + [t[|t| - 1]];
      KeepNoSlash(init);
    }
  }
}
