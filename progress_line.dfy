/** The lines the downloader prints while it downloads, and what
    `parse_progress` makes of them: the percentage token, the size (with
    the `~` of an estimate dropped), the speed and the ETA come back out of
    the line they were written into. */
module ProgressLine {
  import opened Text
  import opened Wrappers
  import opened Progress

  /** `[download] <token>% of [~]<size> at <speed> ETA <eta>`, with an
      optional trailing line feed as `readline` leaves it. */
  function Line(token: string, approx: bool, size: string, speed: string, eta: string, newline: bool): (r: string)
  {
    "[download] " + token + SizeText(approx, size, speed, eta, newline)
  }

  function SizeText(approx: bool, size: string, speed: string, eta: string, newline: bool): string {
    "% of " + (if approx then "~" else "") + size + SpeedText(speed, eta, newline)
  }

  function SpeedText(speed: string, eta: string, newline: bool): string {
    " at " + speed + EtaText(eta, newline)
  }

  function EtaText(eta: string, newline: bool): string {
    " ETA " + eta + (if newline then "\n" else "")
  }

  /** Fields that the pattern reads back unchanged: a digits-and-dots
      token; a size and a speed without white space (the size not starting
      with a tilde, which the pattern would take as the estimate marker); an
      ETA on one line, not starting with white space. */
  predicate Fields(token: string, size: string, speed: string, eta: string) {
    && |token| > 0 && (forall i | 0 <= i < |token| :: IsDigitOrDot(token[i]))
    && |size| > 0 && size[0] != '~' && (forall i | 0 <= i < |size| :: !IsSpace(size[i]))
    && |speed| > 0 && (forall i | 0 <= i < |speed| :: !IsSpace(speed[i]))
    && |eta| > 0 && !IsSpace(eta[0]) && (forall i | 0 <= i < |eta| :: eta[i] != '\n')
  }

  /** Where each part of the line sits. */
  function LineSpan(token: string, approx: bool, size: string, speed: string, eta: string): (m: Span)
    ensures m.etaEnd - m.etaStart == |eta|
  {
    var c := 11 + |token|;
    var g := c + 5 + (if approx then 1 else 0);
    var h := g + |size|;
    var se := h + 4 + |speed|;
    Span(0, 11, c, g, h, h + 1, h + 4, se, se + 1, se + 5, se + 5 + |eta|)
  }

  /** Where the parts of a line sit in `s`, with `m` the layout's span. */
  predicate Laid(s: string, m: Span, token: string, approx: bool, size: string, speed: string, eta: string, newline: bool)
  {
    && m.start == 0 && m.tokenStart == 11 && m.tokenEnd == 11 + |token|
    && m.sizeStart == m.tokenEnd + 5 + (if approx then 1 else 0) && m.sizeEnd == m.sizeStart + |size|
    && m.atPos == m.sizeEnd + 1 && m.speedStart == m.atPos + 3 && m.speedEnd == m.speedStart + |speed|
    && m.etaPos == m.speedEnd + 1 && m.etaStart == m.etaPos + 4 && m.etaEnd == m.etaStart + |eta|
    && |s| == m.etaEnd + (if newline then 1 else 0)
    && LitAt(s, 0, DownloadTag) && s[10] == ' '
    && s[11..m.tokenEnd] == token
    && LitAt(s, m.tokenEnd, PercentOf) && s[m.tokenEnd + 4] == ' '
    && (approx ==> s[m.tokenEnd + 5] == '~')
    && s[m.sizeStart..m.sizeEnd] == size
    && s[m.sizeEnd] == ' ' && LitAt(s, m.atPos, AtWord) && s[m.atPos + 2] == ' '
    && s[m.speedStart..m.speedEnd] == speed
    && s[m.speedEnd] == ' ' && LitAt(s, m.etaPos, EtaWord) && s[m.etaPos + 3] == ' '
    && s[m.etaStart..m.etaEnd] == eta
    && (newline ==> s[m.etaEnd] == '\n')
  }

  /** EtaText, part by part. */
  predicate EtaLaid(e: string, eta: string, newline: bool) {
    && |e| == 5 + |eta| + (if newline then 1 else 0)
    && e[0] == ' ' && LitAt(e, 1, EtaWord) && e[4] == ' '
    && e[5..5 + |eta|] == eta
    && (newline ==> e[5 + |eta|] == '\n')
  }

  /** SpeedText, part by part. */
  predicate SpeedLaid(t: string, speed: string, eta: string, newline: bool) {
    && 4 + |speed| <= |t|
    && t[0] == ' ' && LitAt(t, 1, AtWord) && t[3] == ' '
    && t[4..4 + |speed|] == speed
    && EtaLaid(t[4 + |speed|..], eta, newline)
  }

  /** SizeText, part by part. */
  predicate SizeLaid(u: string, approx: bool, size: string, speed: string, eta: string, newline: bool) {
    var g := 5 + (if approx then 1 else 0);
    && g + |size| <= |u|
    && LitAt(u, 0, PercentOf) && u[4] == ' ' && (approx ==> u[5] == '~')
    && u[g..g + |size|] == size
    && SpeedLaid(u[g + |size|..], speed, eta, newline)
  }

  lemma EtaTextLaid(eta: string, newline: bool)
    ensures EtaLaid(EtaText(eta, newline), eta, newline)
  {
    var e := EtaText(eta, newline);
    assert e[1..4] == "ETA";
    assert e[5..5 + |eta|] == eta;
  }

  lemma SpeedTextLaid(speed: string, eta: string, newline: bool)
    ensures SpeedLaid(SpeedText(speed, eta, newline), speed, eta, newline)
  {
    var t := SpeedText(speed, eta, newline);
    assert t[1..3] == "at";
    assert t[4..4 + |speed|] == speed;
    assert t[4 + |speed|..] == EtaText(eta, newline);
    EtaTextLaid(eta, newline);
  }

  lemma SizeTextLaid(approx: bool, size: string, speed: string, eta: string, newline: bool)
    ensures SizeLaid(SizeText(approx, size, speed, eta, newline), approx, size, speed, eta, newline)
  {
    var u := SizeText(approx, size, speed, eta, newline);
    var g := 5 + (if approx then 1 else 0);
    assert u[0..4] == "% of";
    assert u[g..g + |size|] == size;
    assert u[g + |size|..] == SpeedText(speed, eta, newline);
    SpeedTextLaid(speed, eta, newline);
  }

  /** Facts about a suffix of `s` are facts about `s`. */
  lemma Lift(s: string, c: nat, i: nat, j: nat)
    requires c <= |s| && i <= j <= |s| - c
    ensures s[c..][i..j] == s[c + i..c + j]
    ensures forall lit: string | LitAt(s[c..], i, lit) :: LitAt(s, c + i, lit)
  {
    forall lit: string | LitAt(s[c..], i, lit) ensures LitAt(s, c + i, lit) {
      assert s[c..][i..i + |lit|] == s[c + i..c + i + |lit|];
    }
  }

  /** The line puts its parts where LineSpan says. */
  lemma LineLaid(token: string, approx: bool, size: string, speed: string, eta: string, newline: bool)
    ensures Laid(Line(token, approx, size, speed, eta, newline), LineSpan(token, approx, size, speed, eta),
                 token, approx, size, speed, eta, newline)
  {
    var s := Line(token, approx, size, speed, eta, newline);
    var m := LineSpan(token, approx, size, speed, eta);
    assert s[0..10] == "[download]";
    assert s[11..m.tokenEnd] == token;
    var u := SizeText(approx, size, speed, eta, newline);
    assert s[m.tokenEnd..] == u;
    SizeTextLaid(approx, size, speed, eta, newline);
    LaidSize(s, m, approx, size, speed, eta, newline);
  }

  /** The size part, where LineSpan puts it. */
  lemma LaidSize(s: string, m: Span, approx: bool, size: string, speed: string, eta: string, newline: bool)
    requires m.tokenEnd <= |s| && SizeLaid(s[m.tokenEnd..], approx, size, speed, eta, newline)
    requires m.sizeStart == m.tokenEnd + 5 + (if approx then 1 else 0) && m.sizeEnd == m.sizeStart + |size|
    requires m.atPos == m.sizeEnd + 1 && m.speedStart == m.atPos + 3 && m.speedEnd == m.speedStart + |speed|
    requires m.etaPos == m.speedEnd + 1 && m.etaStart == m.etaPos + 4 && m.etaEnd == m.etaStart + |eta|
    ensures |s| == m.etaEnd + (if newline then 1 else 0)
    ensures LitAt(s, m.tokenEnd, PercentOf) && s[m.tokenEnd + 4] == ' ' && (approx ==> s[m.tokenEnd + 5] == '~')
    ensures s[m.sizeStart..m.sizeEnd] == size
    ensures s[m.sizeEnd] == ' ' && LitAt(s, m.atPos, AtWord) && s[m.atPos + 2] == ' '
    ensures s[m.speedStart..m.speedEnd] == speed
    ensures s[m.speedEnd] == ' ' && LitAt(s, m.etaPos, EtaWord) && s[m.etaPos + 3] == ' '
    ensures s[m.etaStart..m.etaEnd] == eta
    ensures newline ==> s[m.etaEnd] == '\n'
  {
    var u := s[m.tokenEnd..];
    var g := m.sizeStart - m.tokenEnd;
    Lift(s, m.tokenEnd, 0, 4);
    Lift(s, m.tokenEnd, g, g + |size|);
    assert u[g + |size|..] == s[m.sizeEnd..];
    LaidSpeed(s, m, speed, eta, newline);
  }

  /** The speed part, where LineSpan puts it. */
  lemma LaidSpeed(s: string, m: Span, speed: string, eta: string, newline: bool)
    requires m.sizeEnd <= |s| && SpeedLaid(s[m.sizeEnd..], speed, eta, newline)
    requires m.atPos == m.sizeEnd + 1 && m.speedStart == m.atPos + 3 && m.speedEnd == m.speedStart + |speed|
    requires m.etaPos == m.speedEnd + 1 && m.etaStart == m.etaPos + 4 && m.etaEnd == m.etaStart + |eta|
    ensures |s| == m.etaEnd + (if newline then 1 else 0)
    ensures s[m.sizeEnd] == ' ' && LitAt(s, m.atPos, AtWord) && s[m.atPos + 2] == ' '
    ensures s[m.speedStart..m.speedEnd] == speed
    ensures s[m.speedEnd] == ' ' && LitAt(s, m.etaPos, EtaWord) && s[m.etaPos + 3] == ' '
    ensures s[m.etaStart..m.etaEnd] == eta
    ensures newline ==> s[m.etaEnd] == '\n'
  {
    var t := s[m.sizeEnd..];
    Lift(s, m.sizeEnd, 1, 3);
    Lift(s, m.sizeEnd, 4, 4 + |speed|);
    assert t[4 + |speed|..] == s[m.speedEnd..];
    LaidEta(s, m, eta, newline);
  }

  /** The ETA part, where LineSpan puts it. */
  lemma LaidEta(s: string, m: Span, eta: string, newline: bool)
    requires m.speedEnd <= |s| && EtaLaid(s[m.speedEnd..], eta, newline)
    requires m.etaPos == m.speedEnd + 1 && m.etaStart == m.etaPos + 4 && m.etaEnd == m.etaStart + |eta|
    ensures |s| == m.etaEnd + (if newline then 1 else 0)
    ensures s[m.speedEnd] == ' ' && LitAt(s, m.etaPos, EtaWord) && s[m.etaPos + 3] == ' '
    ensures s[m.etaStart..m.etaEnd] == eta
    ensures newline ==> s[m.etaEnd] == '\n'
  {
    Lift(s, m.speedEnd, 1, 4);
    Lift(s, m.speedEnd, 5, 5 + |eta|);
  }

  /** A slice equal to a string all of whose characters satisfy `p`. */
  lemma AllOfSlice(s: string, a: nat, b: nat, t: string, p: char -> bool)
    requires a <= b <= |s| && s[a..b] == t
    requires forall i | 0 <= i < |t| :: p(t[i])
    ensures All(s, a, b, p)
  {
    forall j | a <= j < b ensures p(s[j]) {
      assert s[j] == t[j - a];
    }
  }

  /** The layout is a match of the pattern. */
  lemma LineMatches(s: string, m: Span, token: string, approx: bool, size: string, speed: string, eta: string, newline: bool)
    requires Fields(token, size, speed, eta) && Laid(s, m, token, approx, size, speed, eta, newline)
    ensures IsMatch(s, m)
  {
    LineHeadMatches(s, m, token, approx, size, speed, eta, newline);
    LineTailMatches(s, m, token, approx, size, speed, eta, newline);
  }

  /** `[download]`, group 1, `% of` and the lead of group 2 match. */
  lemma LineHeadMatches(s: string, m: Span, token: string, approx: bool, size: string, speed: string, eta: string, newline: bool)
    requires Fields(token, size, speed, eta) && Laid(s, m, token, approx, size, speed, eta, newline)
    ensures LitAt(s, m.start, DownloadTag) && m.start + 10 < m.tokenStart < m.tokenEnd
    ensures All(s, m.start + 10, m.tokenStart, IsSpace) && All(s, m.tokenStart, m.tokenEnd, IsDigitOrDot)
    ensures LitAt(s, m.tokenEnd, PercentOf) && SizeLead(s, m.tokenEnd + 4, m.sizeStart)
  {
    AllOfSlice(s, m.tokenStart, m.tokenEnd, token, IsDigitOrDot);
    OneSpace(s, 10);
    SpaceLead(s, m.tokenEnd + 4, m.sizeStart, approx);
  }

  /** A blank is a run of one space. */
  lemma OneSpace(s: string, d: nat)
    requires d < |s| && s[d] == ' '
    ensures All(s, d, d + 1, IsSpace)
  {
  }

  /** A blank, with `~` after it when the size is approximate, leads up to
      group 2. */
  lemma SpaceLead(s: string, d: nat, g: nat, approx: bool)
    requires g == d + 1 + (if approx then 1 else 0) && g <= |s|
    requires s[d] == ' ' && (approx ==> s[d + 1] == '~')
    ensures SizeLead(s, d, g)
  {
    OneSpace(s, d);
  }

  /** Groups 2 to 4 of the layout match. */
  lemma LineTailMatches(s: string, m: Span, token: string, approx: bool, size: string, speed: string, eta: string, newline: bool)
    requires Fields(token, size, speed, eta) && Laid(s, m, token, approx, size, speed, eta, newline)
    ensures SizeGroup(s, m.sizeStart, m.sizeEnd, m.atPos, m.speedStart, m.speedEnd, m.etaPos, m.etaStart, m.etaEnd)
  {
    AllOfSlice(s, m.sizeStart, m.sizeEnd, size, NotNewline);
    AllOfSlice(s, m.speedStart, m.speedEnd, speed, NotNewline);
    AllOfSlice(s, m.etaStart, m.etaEnd, eta, NotNewline);
    assert All(s, m.sizeEnd, m.atPos, IsSpace) && All(s, m.atPos + 2, m.speedStart, IsSpace);
    assert All(s, m.speedEnd, m.etaPos, IsSpace) && All(s, m.etaPos + 3, m.etaStart, IsSpace);
  }

  /** Every other match of the pattern on the line is tried later. */
  lemma LineMatchIsFirst(s: string, m: Span, token: string, approx: bool, size: string, speed: string, eta: string, newline: bool)
    requires Fields(token, size, speed, eta) && Laid(s, m, token, approx, size, speed, eta, newline)
    ensures forall m': Span | IsMatch(s, m') :: m' == m || Precedes(m, m')
  {
    forall m': Span | IsMatch(s, m') && m'.start == 0
      ensures m' == m || Precedes(m, m')
    {
      LineMatchFrom0(s, m, token, approx, size, speed, eta, newline, m');
    }
  }

  /** The same, for the matches that start where the line starts. */
  lemma LineMatchFrom0(s: string, m: Span, token: string, approx: bool, size: string, speed: string, eta: string, newline: bool, m': Span)
    requires Fields(token, size, speed, eta) && Laid(s, m, token, approx, size, speed, eta, newline)
    requires IsMatch(s, m') && m'.start == 0
    ensures m' == m || Precedes(m, m')
  {
    LineGroupOne(s, m, token, approx, size, speed, eta, newline, m');
    LineLeadGreedy(s, m, token, approx, size, speed, eta, newline, m');
    if m'.sizeStart == m.sizeStart {
      SizeEndsAtSpace(s, m.sizeStart, m.sizeEnd, size, m');
      if m'.sizeEnd == m.sizeEnd {
        LineAfterSize(s, m, token, approx, size, speed, eta, newline, m');
      }
    }
  }

  /** `[download]`, the token and `% of` are where the layout puts them. */
  lemma LineGroupOne(s: string, m: Span, token: string, approx: bool, size: string, speed: string, eta: string, newline: bool, m': Span)
    requires Fields(token, size, speed, eta) && Laid(s, m, token, approx, size, speed, eta, newline)
    requires IsMatch(s, m') && m'.start == 0
    ensures m'.tokenStart == m.tokenStart && m'.tokenEnd == m.tokenEnd
  {
    assert IsDigitOrDot(s[11]) by {
      assert s[11] == s[11..m.tokenEnd][0];
    }
    RunEndExact(s, 10, 11, IsSpace);
    assert All(s, 11, m.tokenEnd, IsDigitOrDot) by {
      forall j | 11 <= j < m.tokenEnd ensures IsDigitOrDot(s[j]) {
        assert s[j] == s[11..m.tokenEnd][j - 11];
      }
    }
    assert s[m.tokenEnd] == s[m.tokenEnd..m.tokenEnd + 4][0];
    RunEndExact(s, 11, m.tokenEnd, IsDigitOrDot);
    ForcedPositions(s, 0, 11, m.tokenEnd);
  }

  /** Group 2 starts at the layout's position or before it. */
  lemma LineLeadGreedy(s: string, m: Span, token: string, approx: bool, size: string, speed: string, eta: string, newline: bool, m': Span)
    requires Fields(token, size, speed, eta) && Laid(s, m, token, approx, size, speed, eta, newline)
    requires IsMatch(s, m') && m'.tokenEnd == m.tokenEnd
    ensures m'.sizeStart <= m.sizeStart
  {
    var d := m.tokenEnd + 4;
    var e := d + 1;
    assert s[m.sizeStart] == size[0];
    assert !IsSpace(s[e]);
    RunEndExact(s, d, e, IsSpace);
    LeadCandidates(s, d, e, m.sizeStart);
  }

  /** Group 2 of a match can only end at white space, so not inside the
      size. */
  lemma SizeEndsAtSpace(s: string, g: nat, h: nat, size: string, m': Span)
    requires g <= h <= |s| && s[g..h] == size
    requires forall i | 0 <= i < |size| :: !IsSpace(size[i])
    requires IsMatch(s, m') && m'.sizeStart == g
    ensures h <= m'.sizeEnd
  {
    assert forall j | g <= j < h :: !IsSpace(s[j]) by {
      forall j | g <= j < h ensures !IsSpace(s[j]) {
        assert s[j] == size[j - g];
      }
    }
    assert IsSpace(s[m'.sizeEnd]);
  }

  /** Group 3 of a match can only end at white space, so not inside the
      speed. */
  lemma SpeedEndsAtSpace(s: string, ss: nat, se: nat, speed: string, m': Span)
    requires ss <= se <= |s| && s[ss..se] == speed
    requires forall i | 0 <= i < |speed| :: !IsSpace(speed[i])
    requires IsMatch(s, m') && m'.speedStart == ss
    ensures se <= m'.speedEnd
  {
    assert forall j | ss <= j < se :: !IsSpace(s[j]) by {
      forall j | ss <= j < se ensures !IsSpace(s[j]) {
        assert s[j] == speed[j - ss];
      }
    }
    assert IsSpace(s[m'.speedEnd]);
  }

  /** Once group 2 is the size, the rest of a match is the layout's or is
      tried later. */
  lemma LineAfterSize(s: string, m: Span, token: string, approx: bool, size: string, speed: string, eta: string, newline: bool, m': Span)
    requires Fields(token, size, speed, eta) && Laid(s, m, token, approx, size, speed, eta, newline)
    requires IsMatch(s, m') && m'.start == 0
    requires m'.tokenStart == m.tokenStart && m'.tokenEnd == m.tokenEnd
    requires m'.sizeStart == m.sizeStart && m'.sizeEnd == m.sizeEnd
    ensures m' == m || Precedes(m, m')
  {
    // `at` follows the size after one space.
    assert s[m.atPos] == s[m.atPos..m.atPos + 2][0];
    RunEndExact(s, m.sizeEnd, m.atPos, IsSpace);
    ForcedAfterRun(s, m.sizeEnd, AtWord);
    // Group 3 starts at the speed or before it.
    assert s[m.speedStart] == speed[0];
    RunEndExact(s, m.atPos + 2, m.speedStart, IsSpace);
    RunEndIsLongest(s, m.atPos + 2, m'.speedStart, IsSpace);
    if m'.speedStart == m.speedStart {
      SpeedEndsAtSpace(s, m.speedStart, m.speedEnd, speed, m');
      if m'.speedEnd == m.speedEnd {
        LineAfterSpeed(s, m, token, approx, size, speed, eta, newline, m');
      }
    }
  }

  /** Once group 3 is the speed, group 4 is the ETA or is tried later. */
  lemma LineAfterSpeed(s: string, m: Span, token: string, approx: bool, size: string, speed: string, eta: string, newline: bool, m': Span)
    requires Fields(token, size, speed, eta) && Laid(s, m, token, approx, size, speed, eta, newline)
    requires IsMatch(s, m') && m'.start == 0
    requires m'.tokenStart == m.tokenStart && m'.tokenEnd == m.tokenEnd
    requires m'.sizeStart == m.sizeStart && m'.sizeEnd == m.sizeEnd
    requires m'.atPos == m.atPos && m'.speedStart == m.speedStart && m'.speedEnd == m.speedEnd
    ensures m' == m || Precedes(m, m')
  {
    // `ETA` follows the speed after one space; group 4 starts at the ETA
    // or before it and cannot run past the line.
    assert s[m.etaPos] == s[m.etaPos..m.etaPos + 3][0];
    RunEndExact(s, m.speedEnd, m.etaPos, IsSpace);
    ForcedAfterRun(s, m.speedEnd, EtaWord);
    assert s[m.etaStart] == eta[0];
    RunEndExact(s, m.etaPos + 3, m.etaStart, IsSpace);
    RunEndIsLongest(s, m.etaPos + 3, m'.etaStart, IsSpace);
    if m'.etaStart == m.etaStart {
      assert All(s, m.etaStart, m.etaEnd, NotNewline) by {
        forall j | m.etaStart <= j < m.etaEnd ensures NotNewline(s[j]) {
          assert s[j] == eta[j - m.etaStart];
        }
      }
      assert m.etaEnd == |s| || s[m.etaEnd] == '\n';
      RunEndExact(s, m.etaStart, m.etaEnd, NotNewline);
      RunEndIsLongest(s, m.etaStart, m'.etaEnd, NotNewline);
    }
  }

  /** Parsing a progress line gives back the token's value and the size,
      speed and ETA it was written with (the estimate's tilde dropped), or
      the ValueError of `float` when the token is not a number. */
  lemma ParseLine(token: string, approx: bool, size: string, speed: string, eta: string, newline: bool)
    requires Fields(token, size, speed, eta)
    ensures var r := ParseProgress(Line(token, approx, size, speed, eta, newline));
            if AtMostOneDot(token) && HasDigit(token)
            then r == Update(FloatOfToken(token).value, "of " + size + " at " + speed + " ETA " + eta)
            else r.Raises?
  {
    var s := Line(token, approx, size, speed, eta, newline);
    var m := LineSpan(token, approx, size, speed, eta);
    LineLaid(token, approx, size, speed, eta, newline);
    LineMatches(s, m, token, approx, size, speed, eta, newline);
    LineMatchIsFirst(s, m, token, approx, size, speed, eta, newline);
    assert FindMatch(s) == Some(m);
  }

  /** A whole-number percentage reads back as that number. */
  lemma ParseWholePercent(n: nat, approx: bool, size: string, speed: string, eta: string, newline: bool)
    requires Fields(NatToString(n), size, speed, eta)
    ensures ParseProgress(Line(NatToString(n), approx, size, speed, eta, newline))
            == Update(n as real, "of " + size + " at " + speed + " ETA " + eta)
  {
    FloatOfNumeral(n);
    ParseLine(NatToString(n), approx, size, speed, eta, newline);
  }
}
