/** `parse_progress` (app/ytdlp_handler.py and, identically, main.py): one
    line of the downloader's standard output is searched for

        \[download\]\s+([\d\.]+)% of\s+~?(.+?)\s+at\s+(.+?)\s+ETA\s+(.+)

    with `re.search`, and a match becomes a progress percentage (`float` of
    group 1) and a detail string built from groups 2 to 4.

    The search is modelled as the backtracking engine runs it: start
    positions from left to right; at each greedy `\s+` the longest run first,
    then shorter ones; `~?` with the tilde first; each lazy `.+?` shortest
    first; the final greedy `.+` as long as the line allows. IsMatch says
    which positions the pattern can match at all, Precedes says which of two
    matches the engine tries first, and FindMatch is proved to return the
    first match in that order, or nothing when there is no match. */
module Progress {
  import opened Text
  import opened Wrappers

  const DownloadTag: string := "[download]"
  const PercentOf: string := "% of"
  const AtWord: string := "at"
  const EtaWord: string := "ETA"

  predicate IsDigitOrDot(c: char) { IsDigit(c) || c == '.' }

  /** `lit` occurs in `s` at position `p`. */
  predicate LitAt(s: string, p: int, lit: string) {
    0 <= p && p + |lit| <= |s| && s[p..p + |lit|] == lit
  }

  // ---------------------------------------------------------------------
  // Where the pattern can match. Each predicate describes the rest of the
  // pattern from one point on, with every group boundary named.

  /** `ETA\s+(.+)` with `ETA` at `n` and group 4 = `s[es..ee]`. */
  predicate EtaTail(s: string, n: int, es: int, ee: int) {
    LitAt(s, n, EtaWord) && n + 3 < es < ee
    && All(s, n + 3, es, IsSpace) && All(s, es, ee, NotNewline)
  }

  /** `\s+ETA\s+(.+)` from `se`, the end of group 3. */
  predicate AfterSpeed(s: string, se: int, n: int, es: int, ee: int) {
    se < n && All(s, se, n, IsSpace) && EtaTail(s, n, es, ee)
  }

  /** `(.+?)\s+ETA\s+(.+)` with group 3 = `s[ss..se]`. */
  predicate SpeedGroup(s: string, ss: int, se: int, n: int, es: int, ee: int) {
    ss < se && All(s, ss, se, NotNewline) && AfterSpeed(s, se, n, es, ee)
  }

  /** `at\s+(.+?)\s+ETA\s+(.+)` with `at` at `k`. */
  predicate AtTail(s: string, k: int, ss: int, se: int, n: int, es: int, ee: int) {
    LitAt(s, k, AtWord) && k + 2 < ss && All(s, k + 2, ss, IsSpace)
    && SpeedGroup(s, ss, se, n, es, ee)
  }

  /** `\s+at…` from `h`, the end of group 2. */
  predicate AfterSize(s: string, h: int, k: int, ss: int, se: int, n: int, es: int, ee: int) {
    h < k && All(s, h, k, IsSpace) && AtTail(s, k, ss, se, n, es, ee)
  }

  /** `(.+?)\s+at…` with group 2 = `s[g..h]`. */
  predicate SizeGroup(s: string, g: int, h: int, k: int, ss: int, se: int, n: int, es: int, ee: int) {
    g < h && All(s, g, h, NotNewline) && AfterSize(s, h, k, ss, se, n, es, ee)
  }

  /** `\s+~?` from `d` (just after `% of`) up to `g`, the start of group 2. */
  predicate SizeLead(s: string, d: int, g: int) {
    0 <= d && g <= |s|
    && ((d < g && All(s, d, g, IsSpace))
        || (d + 1 < g && All(s, d, g - 1, IsSpace) && s[g - 1] == '~'))
  }

  /** The group boundaries of one way the pattern matches a line. */
  datatype Span = Span(
    start: nat,                       // where `[download]` begins
    tokenStart: nat, tokenEnd: nat,   // group 1, the percentage
    sizeStart: nat, sizeEnd: nat,     // group 2, the size
    atPos: nat,
    speedStart: nat, speedEnd: nat,   // group 3, the speed
    etaPos: nat,
    etaStart: nat, etaEnd: nat)       // group 4, the ETA

  /** The pattern matches `s` with the group boundaries of `m`. */
  predicate IsMatch(s: string, m: Span) {
    && LitAt(s, m.start, DownloadTag)
    && m.start + 10 < m.tokenStart < m.tokenEnd
    && All(s, m.start + 10, m.tokenStart, IsSpace)
    && All(s, m.tokenStart, m.tokenEnd, IsDigitOrDot)
    && LitAt(s, m.tokenEnd, PercentOf)
    && SizeLead(s, m.tokenEnd + 4, m.sizeStart)
    && SizeGroup(s, m.sizeStart, m.sizeEnd, m.atPos, m.speedStart, m.speedEnd, m.etaPos, m.etaStart, m.etaEnd)
  }

  /** The backtracking engine tries match `a` before match `b`: earlier
      start; then later group-2 start (greedy `\s+~?`); then shorter group 2
      (lazy); then later group-3 start; then shorter group 3; then later
      group-4 start; then longer group 4. The positions not named here are
      fixed by the named ones (ForcedPositions). */
  predicate Precedes(a: Span, b: Span) {
    a.start < b.start
    || (a.start == b.start && (a.sizeStart > b.sizeStart
    || (a.sizeStart == b.sizeStart && (a.sizeEnd < b.sizeEnd
    || (a.sizeEnd == b.sizeEnd && (a.speedStart > b.speedStart
    || (a.speedStart == b.speedStart && (a.speedEnd < b.speedEnd
    || (a.speedEnd == b.speedEnd && (a.etaStart > b.etaStart
    || (a.etaStart == b.etaStart && a.etaEnd > b.etaEnd)))))))))))
  }

  // ---------------------------------------------------------------------
  // The search, level by level, each level trying its candidates in the
  // engine's order and returning the first that the rest of the pattern
  // accepts.

  /** Group 4's start, tried from `q` down to just after `ETA\s`: the
      greedy `\s+` gives back one character at a time; group 4 (`.+`,
      greedy, last in the pattern) then runs to the end of the line. */
  function EtaStartFrom(s: string, n: nat, q: nat): (r: Option<nat>)
    requires LitAt(s, n, EtaWord) && n + 3 <= q && All(s, n + 3, q, IsSpace)
    ensures r.Some? ==> r.value <= q && EtaTail(s, n, r.value, RunEnd(s, r.value, NotNewline))
    ensures forall es, ee | EtaTail(s, n, es, ee) && es <= q ::
              r.Some? && es <= r.value
    decreases q
  {
    if q == n + 3 then None
    else if q < |s| && s[q] != '\n' then Some(q)
    else
      assert forall es, ee | EtaTail(s, n, es, ee) :: es < |s| && s[es] != '\n' by {
        forall es, ee | EtaTail(s, n, es, ee) ensures es < |s| && s[es] != '\n' {
          assert NotNewline(s[es]);
        }
      }
      EtaStartFrom(s, n, q - 1)
  }

  /** `\s+ETA\s+(.+)` after group 3 ends at `se`: (ETA position, group 4). */
  function EtaAfter(s: string, se: nat): (r: Option<(nat, nat, nat)>)
    requires se <= |s|
    ensures r.Some? ==> AfterSpeed(s, se, r.value.0, r.value.1, r.value.2)
    ensures forall n, es, ee | AfterSpeed(s, se, n, es, ee) ::
              r.Some? && n == r.value.0
              && (es < r.value.1 || (es == r.value.1 && ee <= r.value.2))
  {
    var n := RunEnd(s, se, IsSpace);
    ForcedAfterRun(s, se, EtaWord);
    if n > se && LitAt(s, n, EtaWord) then
      var y := RunEnd(s, n + 3, IsSpace);
      match EtaStartFrom(s, n, y)
      case Some(es) =>
        var ee := RunEnd(s, es, NotNewline);
        assert forall es', ee' | EtaTail(s, n, es', ee') :: es' <= y && (es' == es ==> ee' <= ee) by {
          forall es', ee' | EtaTail(s, n, es', ee') ensures es' <= y && (es' == es ==> ee' <= ee) {
            RunEndIsLongest(s, n + 3, es', IsSpace);
            RunEndIsLongest(s, es', ee', NotNewline);
          }
        }
        Some((n, es, ee))
      case None =>
        assert forall es', ee' | EtaTail(s, n, es', ee') :: es' <= y by {
          forall es', ee' | EtaTail(s, n, es', ee') ensures es' <= y {
            RunEndIsLongest(s, n + 3, es', IsSpace);
          }
        }
        None
    else None
  }

  /** A non-blank literal that follows a run of white space starts where
      the run ends. */
  lemma ForcedAfterRun(s: string, a: nat, lit: string)
    requires a <= |s| && |lit| > 0 && !IsSpace(lit[0])
    ensures forall n | a <= n && All(s, a, n, IsSpace) && LitAt(s, n, lit) :: n == RunEnd(s, a, IsSpace)
  {
    forall n | a <= n && All(s, a, n, IsSpace) && LitAt(s, n, lit) ensures n == RunEnd(s, a, IsSpace) {
      assert s[n] == s[n..n + |lit|][0] == lit[0];
      RunEndExact(s, a, n, IsSpace);
    }
  }

  /** Group 3's end, tried from `se` onwards (lazy `.+?`). */
  function SpeedEndFrom(s: string, ss: nat, se: nat): (r: Option<(nat, nat, nat, nat)>)
    requires ss < se <= |s| && All(s, ss, se, NotNewline)
    ensures r.Some? ==> se <= r.value.0 && SpeedGroup(s, ss, r.value.0, r.value.1, r.value.2, r.value.3)
    ensures forall se', n, es, ee | se <= se' && SpeedGroup(s, ss, se', n, es, ee) ::
              r.Some? && (r.value.0 < se'
                || (r.value.0 == se' && n == r.value.1
                    && (es < r.value.2 || (es == r.value.2 && ee <= r.value.3))))
    decreases |s| - se
  {
    match EtaAfter(s, se)
    case Some(t) => Some((se, t.0, t.1, t.2))
    case None =>
      if se < |s| && s[se] != '\n' then SpeedEndFrom(s, ss, se + 1)
      else
        SpeedCannotGrow(s, ss, se);
        None
  }

  /** Group 3 cannot run past a line feed or the end of the line. */
  lemma SpeedCannotGrow(s: string, ss: nat, se: nat)
    requires ss <= se
    ensures forall se', n, es, ee | se < se' && SpeedGroup(s, ss, se', n, es, ee) :: se < |s| && s[se] != '\n'
  {
    forall se', n, es, ee | se < se' && SpeedGroup(s, ss, se', n, es, ee) ensures se < |s| && s[se] != '\n' {
      assert NotNewline(s[se]);
    }
  }

  /** Group 3 cannot start on a line feed or at the end of the line. */
  lemma SpeedStartsOnLine(s: string, k: nat)
    ensures forall ss, se, n, es, ee | AtTail(s, k, ss, se, n, es, ee) :: ss < |s| && s[ss] != '\n'
  {
    forall ss, se, n, es, ee | AtTail(s, k, ss, se, n, es, ee) ensures ss < |s| && s[ss] != '\n' {
      assert NotNewline(s[ss]);
    }
  }

  /** Group 3's start, tried from `q` down to just after `at\s` (greedy
      `\s+` giving back). */
  function SpeedStartFrom(s: string, k: nat, q: nat): (r: Option<(nat, nat, nat, nat, nat)>)
    requires LitAt(s, k, AtWord) && k + 2 <= q && All(s, k + 2, q, IsSpace)
    ensures r.Some? ==> r.value.0 <= q && AtTail(s, k, r.value.0, r.value.1, r.value.2, r.value.3, r.value.4)
    ensures forall ss, se, n, es, ee | ss <= q && AtTail(s, k, ss, se, n, es, ee) ::
              r.Some? && (ss < r.value.0
                || (ss == r.value.0 && (r.value.1 < se
                || (r.value.1 == se && n == r.value.2
                    && (es < r.value.3 || (es == r.value.3 && ee <= r.value.4))))))
    decreases q
  {
    if q == k + 2 then None
    else if q < |s| && s[q] != '\n' && SpeedEndFrom(s, q, q + 1).Some? then
      var t := SpeedEndFrom(s, q, q + 1).value;
      Some((q, t.0, t.1, t.2, t.3))
    else
      SpeedStartsOnLine(s, k);
      SpeedStartFrom(s, k, q - 1)
  }

  /** `\s+at\s+(.+?)\s+ETA\s+(.+)` after group 2 ends at `h`. */
  function AtAfter(s: string, h: nat): (r: Option<(nat, nat, nat, nat, nat, nat)>)
    requires h <= |s|
    ensures r.Some? ==> AfterSize(s, h, r.value.0, r.value.1, r.value.2, r.value.3, r.value.4, r.value.5)
    ensures forall k, ss, se, n, es, ee | AfterSize(s, h, k, ss, se, n, es, ee) ::
              r.Some? && k == r.value.0 && (ss < r.value.1
                || (ss == r.value.1 && (r.value.2 < se
                || (r.value.2 == se && n == r.value.3
                    && (es < r.value.4 || (es == r.value.4 && ee <= r.value.5))))))
  {
    var k := RunEnd(s, h, IsSpace);
    ForcedAfterRun(s, h, AtWord);
    if k > h && LitAt(s, k, AtWord) then
      var x := RunEnd(s, k + 2, IsSpace);
      assert forall ss, se, n, es, ee | AtTail(s, k, ss, se, n, es, ee) :: ss <= x by {
        forall ss, se, n, es, ee | AtTail(s, k, ss, se, n, es, ee) ensures ss <= x {
          RunEndIsLongest(s, k + 2, ss, IsSpace);
        }
      }
      match SpeedStartFrom(s, k, x)
      case Some(t) => Some((k, t.0, t.1, t.2, t.3, t.4))
      case None => None
    else None
  }

  /** Group 2's end, tried from `h` onwards (lazy `.+?`). */
  function SizeEndFrom(s: string, g: nat, h: nat): (r: Option<(nat, nat, nat, nat, nat, nat, nat)>)
    requires g < h <= |s| && All(s, g, h, NotNewline)
    ensures r.Some? ==> (h <= r.value.0
      && SizeGroup(s, g, r.value.0, r.value.1, r.value.2, r.value.3, r.value.4, r.value.5, r.value.6))
    ensures forall h', k, ss, se, n, es, ee | h <= h' && SizeGroup(s, g, h', k, ss, se, n, es, ee) ::
              r.Some? && (r.value.0 < h'
                || (r.value.0 == h' && k == r.value.1 && (ss < r.value.2
                || (ss == r.value.2 && (r.value.3 < se
                || (r.value.3 == se && n == r.value.4
                    && (es < r.value.5 || (es == r.value.5 && ee <= r.value.6))))))))
    decreases |s| - h
  {
    match AtAfter(s, h)
    case Some(t) => Some((h, t.0, t.1, t.2, t.3, t.4, t.5))
    case None =>
      if h < |s| && s[h] != '\n' then SizeEndFrom(s, g, h + 1)
      else
        SizeCannotGrow(s, g, h);
        None
  }

  /** Group 2 cannot run past a line feed or the end of the line. */
  lemma SizeCannotGrow(s: string, g: nat, h: nat)
    requires g <= h
    ensures forall h', k, ss, se, n, es, ee | h < h' && SizeGroup(s, g, h', k, ss, se, n, es, ee) ::
              h < |s| && s[h] != '\n'
  {
    forall h', k, ss, se, n, es, ee | h < h' && SizeGroup(s, g, h', k, ss, se, n, es, ee)
      ensures h < |s| && s[h] != '\n'
    {
      assert NotNewline(s[h]);
    }
  }

  /** Group 2 cannot start on a line feed or at the end of the line. */
  lemma SizeStartsOnLine(s: string)
    ensures forall g, h, k, ss, se, n, es, ee | SizeGroup(s, g, h, k, ss, se, n, es, ee) :: g < |s| && s[g] != '\n'
  {
    forall g, h, k, ss, se, n, es, ee | SizeGroup(s, g, h, k, ss, se, n, es, ee) ensures g < |s| && s[g] != '\n' {
      assert NotNewline(s[g]);
    }
  }

  /** Group 2's start, tried from `q` down to just after `% of\s`: first
      past an optional tilde, then the greedy `\s+` giving back.
      SizeStartFromIsFirst proves that no candidate is missed. */
  function SizeStartFrom(s: string, d: nat, q: nat): (r: Option<(nat, nat, nat, nat, nat, nat, nat, nat)>)
    requires d <= q <= |s|
    ensures r.Some? ==> (d < r.value.0 <= q
      && SizeGroup(s, r.value.0, r.value.1, r.value.2, r.value.3, r.value.4, r.value.5, r.value.6, r.value.7))
    decreases q
  {
    if q == d then None
    else if q < |s| && s[q] != '\n' && SizeEndFrom(s, q, q + 1).Some? then
      var t := SizeEndFrom(s, q, q + 1).value;
      Some((q, t.0, t.1, t.2, t.3, t.4, t.5, t.6))
    else SizeStartFrom(s, d, q - 1)
  }

  /** The engine tries the group boundaries `v` no later than the
      boundaries `g` … `ee`. */
  predicate SizeNotAfter(v: (nat, nat, nat, nat, nat, nat, nat, nat),
                         g: int, h: int, k: int, ss: int, se: int, n: int, es: int, ee: int) {
    g < v.0
    || (g == v.0 && (v.1 < h
    || (v.1 == h && k == v.2 && (ss < v.3
    || (ss == v.3 && (v.4 < se
    || (v.4 == se && n == v.5
        && (es < v.6 || (es == v.6 && ee <= v.7)))))))))
  }

  /** Every way group 2 can start in (d, q] is found by SizeStartFrom, and
      none that it finds is tried later than it. */
  lemma {:induction false} SizeStartFromIsFirst(s: string, d: nat, q: nat)
    requires d <= q <= |s|
    ensures forall g, h, k, ss, se, n, es, ee | d < g <= q && SizeGroup(s, g, h, k, ss, se, n, es, ee) ::
              SizeStartFrom(s, d, q).Some? && SizeNotAfter(SizeStartFrom(s, d, q).value, g, h, k, ss, se, n, es, ee)
    decreases q
  {
    if q > d {
      SizeStartFromIsFirst(s, d, q - 1);
      if !(q < |s| && s[q] != '\n' && SizeEndFrom(s, q, q + 1).Some?) {
        SizeStartsOnLine(s);
      }
    }
  }

  /** `\s+~?(.+?)\s+at\s+(.+?)\s+ETA\s+(.+)` from `d`, just after `% of`. */
  function SizeFrom(s: string, d: nat): (r: Option<(nat, nat, nat, nat, nat, nat, nat, nat)>)
    requires d <= |s|
    ensures r.Some? ==> (SizeLead(s, d, r.value.0)
      && SizeGroup(s, r.value.0, r.value.1, r.value.2, r.value.3, r.value.4, r.value.5, r.value.6, r.value.7))
    ensures forall g, h, k, ss, se, n, es, ee | SizeLead(s, d, g) && SizeGroup(s, g, h, k, ss, se, n, es, ee) ::
              r.Some? && SizeNotAfter(r.value, g, h, k, ss, se, n, es, ee)
  {
    var e := RunEnd(s, d, IsSpace);
    assert forall g | SizeLead(s, d, g) :: d < |s| && IsSpace(s[d]);
    if e > d then
      var top := if e < |s| && s[e] == '~' then e + 1 else e;
      LeadCandidates(s, d, e, top);
      SizeStartFromIsFirst(s, d, top);
      SizeStartFrom(s, d, top)
    else None
  }

  /** The pattern anchored at `i`; the first match there in the engine's
      order. */
  function MatchAt(s: string, i: nat): (r: Option<Span>)
    ensures r.Some? ==> r.value.start == i && IsMatch(s, r.value)
    ensures forall m: Span | m.start == i && IsMatch(s, m) :: r.Some? && !Precedes(m, r.value)
  {
    if LitAt(s, i, DownloadTag) then
      var b := RunEnd(s, i + 10, IsSpace);
      var c := RunEnd(s, b, IsDigitOrDot);
      if b > i + 10 && c > b && LitAt(s, c, PercentOf) then
        match SizeFrom(s, c + 4)
        case Some(t) =>
          var m := Span(i, b, c, t.0, t.1, t.2, t.3, t.4, t.5, t.6, t.7);
          MatchAtFirst(s, i, b, c, m);
          Some(m)
        case None => NoMatchAt(s, i, b, c); None
      else NoMatchAt(s, i, b, c); None
    else None
  }

  /** The match built from the forced positions and the first size groups
      comes before every other match at the same start. */
  lemma MatchAtFirst(s: string, i: nat, b: nat, c: nat, m: Span)
    requires LitAt(s, i, DownloadTag)
    requires b == RunEnd(s, i + 10, IsSpace) && c == RunEnd(s, b, IsDigitOrDot)
    requires b > i + 10 && c > b && LitAt(s, c, PercentOf)
    requires SizeFrom(s, c + 4) == Some((m.sizeStart, m.sizeEnd, m.atPos, m.speedStart, m.speedEnd, m.etaPos, m.etaStart, m.etaEnd))
    requires m.start == i && m.tokenStart == b && m.tokenEnd == c
    ensures IsMatch(s, m)
    ensures forall n: Span | n.start == i && IsMatch(s, n) :: !Precedes(n, m)
  {
    ForcedPositions(s, i, b, c);
  }

  /** Without the forced token and `% of`, or without size groups, nothing
      matches at `i`. */
  lemma NoMatchAt(s: string, i: nat, b: nat, c: nat)
    requires LitAt(s, i, DownloadTag)
    requires b == RunEnd(s, i + 10, IsSpace) && c == RunEnd(s, b, IsDigitOrDot)
    requires !(b > i + 10 && c > b && LitAt(s, c, PercentOf)) || SizeFrom(s, c + 4).None?
    ensures forall n: Span | n.start == i :: !IsMatch(s, n)
  {
    ForcedPositions(s, i, b, c);
  }

  /** Every possible group-2 start lies in (d, top], and every position
      there is a possible group-2 start. */
  lemma LeadCandidates(s: string, d: nat, e: nat, top: nat)
    requires d < e <= |s| && e == RunEnd(s, d, IsSpace)
    requires top == if e < |s| && s[e] == '~' then e + 1 else e
    ensures forall g | SizeLead(s, d, g) :: d < g <= top
    ensures forall g | d < g <= top :: SizeLead(s, d, g)
  {
    forall g | SizeLead(s, d, g) ensures d < g <= top {
      if d < g && All(s, d, g, IsSpace) {
        RunEndIsLongest(s, d, g, IsSpace);
      } else {
        RunEndIsLongest(s, d, g - 1, IsSpace);
        assert !IsSpace(s[g - 1]);
      }
    }
    forall g | d < g <= top ensures SizeLead(s, d, g) {
      if g <= e {
        assert All(s, d, g, IsSpace);
      }
    }
  }

  /** The token start and end, and the position of `% of`, are fixed by
      where `[download]` begins. */
  lemma ForcedPositions(s: string, i: nat, b: nat, c: nat)
    requires LitAt(s, i, DownloadTag)
    requires b == RunEnd(s, i + 10, IsSpace) && c == RunEnd(s, b, IsDigitOrDot)
    ensures forall m: Span | m.start == i && IsMatch(s, m) ::
              && m.tokenStart == b && m.tokenEnd == c
              && b > i + 10 && c > b && LitAt(s, c, PercentOf)
              && SizeLead(s, c + 4, m.sizeStart)
              && SizeGroup(s, m.sizeStart, m.sizeEnd, m.atPos, m.speedStart, m.speedEnd, m.etaPos, m.etaStart, m.etaEnd)
  {
    forall m: Span | m.start == i && IsMatch(s, m) ensures m.tokenStart == b && m.tokenEnd == c {
      assert s[m.tokenStart] == s[m.tokenStart..m.tokenEnd][0];
      assert IsDigitOrDot(s[m.tokenStart]);
      RunEndExact(s, i + 10, m.tokenStart, IsSpace);
      assert s[m.tokenEnd] == s[m.tokenEnd..m.tokenEnd + 4][0] == '%';
      RunEndExact(s, b, m.tokenEnd, IsDigitOrDot);
    }
  }

  /** `re.search`: start positions from `i` to the end of the line. */
  function SearchFrom(s: string, i: nat): (r: Option<Span>)
    requires i <= |s|
    ensures r.Some? ==> i <= r.value.start && IsMatch(s, r.value)
    ensures forall m: Span | i <= m.start && IsMatch(s, m) :: r.Some? && !Precedes(m, r.value)
    decreases |s| - i
  {
    match MatchAt(s, i)
    case Some(m) => Some(m)
    case None =>
      if i < |s| then SearchFrom(s, i + 1) else None
  }

  /** The match `re.search` finds in `line`: there is one exactly when the
      pattern matches somewhere, and it is the first the engine tries. */
  function FindMatch(line: string): (r: Option<Span>)
    ensures r.Some? ==> IsMatch(line, r.value)
    ensures forall m: Span | IsMatch(line, m) :: r.Some? && !Precedes(m, r.value)
  {
    SearchFrom(line, 0)
  }

  // ---------------------------------------------------------------------
  // From a match to the parser's result.

  /** At most one dot in a digits-and-dots token. */
  predicate AtMostOneDot(t: string) {
    forall i, j | 0 <= i < j < |t| :: !(t[i] == '.' && t[j] == '.')
  }

  predicate HasDigit(t: string) {
    exists i | 0 <= i < |t| :: IsDigit(t[i])
  }

  /** Python's `float(token)` on a string of digits and dots, as an exact
      decimal: a value exactly when the token has at most one dot and at
      least one digit; `float` raises ValueError otherwise. */
  function FloatOfToken(t: string): (r: Option<real>)
    requires forall i | 0 <= i < |t| :: IsDigitOrDot(t[i])
    ensures r.Some? <==> AtMostOneDot(t) && HasDigit(t)
    ensures r.Some? ==> r.value >= 0.0
  {
    if '.' in t then
      var i := IndexOf(t, '.');
      var whole, frac := t[..i], t[i + 1..];
      TokenAroundDot(t, i);
      if '.' in frac || (whole == [] && frac == []) then None
      else Some(DigitsValue(whole) as real + FractionValue(frac))
    else if t == [] then None
    else
      TokenWithoutDot(t);
      Some(DigitsValue(t) as real)
  }

  /** The value of the digits after a decimal point: `.d1d2…` is
      `(d1 + .d2…) / 10`. */
  function FractionValue(f: string): (r: real)
    requires AllDigits(f)
    ensures 0.0 <= r < 1.0
    decreases |f|
  {
    if f == [] then 0.0
    else ((f[0] as int - '0' as int) as real + FractionValue(f[1..])) / 10.0
  }

  /** `x` with its decimal point moved `n` places to the right. */
  function ShiftPoint(x: real, n: nat): real
    decreases n
  {
    if n == 0 then x else ShiftPoint(x * 10.0, n - 1)
  }

  lemma TokenWithoutDot(t: string)
    requires forall j | 0 <= j < |t| :: IsDigitOrDot(t[j])
    requires '.' !in t && t != []
    ensures forall j | 0 <= j < |t| :: IsDigit(t[j])
    ensures AtMostOneDot(t) && HasDigit(t)
  {
    forall j | 0 <= j < |t| ensures IsDigit(t[j]) {
      assert t[j] in t;
    }
    assert IsDigit(t[0]);
  }

  /** Splitting a token at its first dot: both sides are digits unless the
      part after the dot holds a second dot. */
  lemma TokenAroundDot(t: string, i: nat)
    requires forall j | 0 <= j < |t| :: IsDigitOrDot(t[j])
    requires i < |t| && t[i] == '.' && '.' !in t[..i]
    ensures forall j | 0 <= j < i :: IsDigit(t[j])
    ensures '.' in t[i + 1..] <==> !AtMostOneDot(t)
    ensures '.' !in t[i + 1..] ==> forall j | i < j < |t| :: IsDigit(t[j])
    ensures HasDigit(t) <==> (i > 0 || i + 1 < |t|) && ('.' !in t[i + 1..] || HasDigit(t))
  {
    forall j | 0 <= j < i ensures IsDigit(t[j]) {
      assert t[j] in t[..i];
    }
    if '.' in t[i + 1..] {
      var k := IndexOf(t[i + 1..], '.');
      assert t[i + 1 + k] == '.';
    } else {
      forall j | i < j < |t| ensures IsDigit(t[j]) {
        assert t[j] == t[i + 1..][j - i - 1];
      }
      forall a, b | 0 <= a < b < |t| ensures !(t[a] == '.' && t[b] == '.') {
        if b > i { assert t[b] == t[i + 1..][b - i - 1]; }
      }
      if i > 0 { assert IsDigit(t[0]); } else if i + 1 < |t| { assert IsDigit(t[i + 1]); }
    }
  }

  /** A whole-number token reads as that number. */
  lemma FloatOfNumeral(n: nat)
    ensures FloatOfToken(NatToString(n)) == Some(n as real)
  {
    var t := NatToString(n);
    assert forall j | 0 <= j < |t| :: t[j] != '.' by {
      forall j | 0 <= j < |t| ensures t[j] != '.' {
        assert IsDigit(t[j]);
      }
    }
    NatToStringRoundTrip(n);
  }

  /** A token `<w>.<f>` with digit strings `w` and `f`, not both empty,
      reads as the decimal it writes: moving its point `|f|` places to the
      right gives the integer that the digits of `w` and `f` spell together. */
  lemma FloatOfDecimal(w: string, f: string)
    requires AllDigits(w) && AllDigits(f) && (w != [] || f != [])
    ensures var t := w + "." + f;
            (forall i | 0 <= i < |t| :: IsDigitOrDot(t[i]))
            && FloatOfToken(t).Some? && AllDigits(w + f)
            && ShiftPoint(FloatOfToken(t).value, |f|) == DigitsValue(w + f) as real
  {
    FloatAtDot(w, f);
    ShiftFraction(w, f);
  }

  /** `float` splits `<w>.<f>` at its dot. */
  lemma FloatAtDot(w: string, f: string)
    requires AllDigits(w) && AllDigits(f) && (w != [] || f != [])
    ensures var t := w + "." + f;
            (forall i | 0 <= i < |t| :: IsDigitOrDot(t[i]))
            && FloatOfToken(t) == Some(DigitsValue(w) as real + FractionValue(f))
  {
    var t := w + "." + f;
    DecimalToken(w, f);
    FloatAtFirstDot(t, |w|, w, f);
  }

  /** `<w>.<f>` is a digits-and-dots token whose only dot follows `w`. */
  lemma DecimalToken(w: string, f: string)
    requires AllDigits(w) && AllDigits(f)
    ensures var t := w + "." + f;
            (forall i | 0 <= i < |t| :: IsDigitOrDot(t[i]))
            && '.' in t && IndexOf(t, '.') == |w|
            && t[..|w|] == w && t[|w| + 1..] == f && '.' !in f
  {
    var t := w + "." + f;
    forall i | 0 <= i < |t| ensures IsDigitOrDot(t[i]) {
      if i < |w| { assert t[i] == w[i]; } else if i > |w| { assert t[i] == f[i - |w| - 1]; }
    }
    assert t[..|w|] == w && t[|w|] == '.' && t[|w| + 1..] == f;
    assert '.' !in w by {
      forall i | 0 <= i < |w| ensures w[i] != '.' { assert IsDigit(w[i]); }
    }
    assert '.' !in f by {
      forall i | 0 <= i < |f| ensures f[i] != '.' { assert IsDigit(f[i]); }
    }
    IndexOfUnique(t, '.', |w|);
  }

  lemma FloatAtFirstDot(t: string, i: nat, w: string, f: string)
    requires forall j | 0 <= j < |t| :: IsDigitOrDot(t[j])
    requires '.' in t && i == IndexOf(t, '.') && w == t[..i] && f == t[i + 1..]
    requires AllDigits(w) && AllDigits(f) && '.' !in f && (w != [] || f != [])
    ensures FloatOfToken(t) == Some(DigitsValue(w) as real + FractionValue(f))
  {
    TokenAroundDot(t, i);
  }

  /** Moving the point of `<w>.<f>` past every digit of `f`, one digit at
      a time: each step appends the next digit of `f` to the whole part. */
  lemma {:induction false} ShiftFraction(w: string, f: string)
    requires AllDigits(w) && AllDigits(f)
    ensures AllDigits(w + f)
    ensures ShiftPoint(DigitsValue(w) as real + FractionValue(f), |f|) == DigitsValue(w + f) as real
    decreases |f|
  {
    DigitsAppend(w, f);
    if f == [] {
      assert w + f == w;
    } else {
      var w', f' := w + [f[0]], f[1..];
      assert w + f == w' + f';
      assert w'[..|w'| - 1] == w && w'[|w'| - 1] == f[0];
      assert AllDigits(w') by { DigitsAppend(w, [f[0]]); }
      LastDigit(w');
      ShiftFraction(w', f');
    }
  }

  /** A token of digits alone reads as the integer it spells. */
  lemma FloatOfWhole(w: string)
    requires AllDigits(w) && w != []
    ensures (forall i | 0 <= i < |w| :: IsDigitOrDot(w[i]))
            && FloatOfToken(w) == Some(DigitsValue(w) as real)
  {
    assert '.' !in w by {
      forall i | 0 <= i < |w| ensures w[i] != '.' { assert IsDigit(w[i]); }
    }
  }

  /** The result of `parse_progress`: None, or the progress dictionary, or
      the ValueError that `float` raises on a token such as `1.2.3`. */
  datatype ProgressUpdate =
    | NoProgress
    | Update(progress: real, details: string)
    | Raises(message: string)

  /** The detail text built from groups 2 to 4 of a match. */
  function Details(s: string, m: Span): (r: string)
    requires IsMatch(s, m)
    ensures r == "of " + s[m.sizeStart..m.sizeEnd] + " at " + s[m.speedStart..m.speedEnd]
                 + " ETA " + s[m.etaStart..m.etaEnd]
  {
    "of " + s[m.sizeStart..m.sizeEnd] + " at " + s[m.speedStart..m.speedEnd] + " ETA " + s[m.etaStart..m.etaEnd]
  }

  /** `parse_progress(line)`. */
  function ParseProgress(line: string): (r: ProgressUpdate)
    ensures r.NoProgress? <==> forall m: Span :: !IsMatch(line, m)
    ensures !r.NoProgress? ==>
              var m := FindMatch(line).value;
              var t := line[m.tokenStart..m.tokenEnd];
              && IsMatch(line, m)
              && (r.Raises? <==> !(AtMostOneDot(t) && HasDigit(t)))
              && (r.Update? ==> r.details == Details(line, m))
              && (r.Update? ==> Some(r.progress) == FloatOfToken(t))
  {
    match FindMatch(line)
    case None => NoProgress
    case Some(m) =>
      var t := line[m.tokenStart..m.tokenEnd];
      assert forall i | 0 <= i < |t| :: IsDigitOrDot(t[i]);
      match FloatOfToken(t)
      case Some(v) => Update(v, Details(line, m))
      case None => Raises("could not convert string to float: '" + t + "'")
  }
}
