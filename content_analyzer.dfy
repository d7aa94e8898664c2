/** `ContentAnalyzer` of `app/content_analyzer.py`: the classification of a
    url as a live stream, a playlist or a single video, and the analysis
    result built around the probe of that kind of content.

    Every pattern of the classifier is a chain of literal pieces joined by
    `.*` gaps, searched for anywhere in the url with IGNORECASE. Such a
    pattern matches exactly when its pieces occur in order on one line, so
    the model states that as the specification (Reach, Searches) and proves
    a greedy scanner (FirstPiece, Follows, SearchAny) equal to it. */
module ContentAnalyzer {
  import opened Text
  import opened Wrappers
  import opened Entities
  import opened YtDlpHandler
  import opened LiveHandler
  import opened PlaylistHandler

  /** Pattern character `p` matches text character `t` under Python's
      IGNORECASE: the same character, the other ASCII case of a letter, or
      one of the non-ASCII characters that fold onto `i`, `k` or `s`. */
  predicate CharMatches(p: char, t: char) {
    t == p
    || ('a' <= p <= 'z' && t as int == p as int - 32)
    || ('A' <= p <= 'Z' && t as int == p as int + 32)
    || (p == 'i' && (t == 'İ' || t == 'ı'))
    || (p == 'k' && t == 'K')
    || (p == 's' && t == 'ſ')
  }

  /** The literal `piece` matches the text at position `i`. */
  predicate PieceAt(s: string, i: int, piece: string) {
    0 <= i && i + |piece| <= |s| && forall j | 0 <= j < |piece| :: CharMatches(piece[j], s[i + j])
  }

  /** A pattern piece never contains a line feed, so it never matches one. */
  predicate OneLine(ps: seq<string>) {
    forall k | 0 <= k < |ps| :: '\n' !in ps[k]
  }

  /** Regex semantics of `ps[0].*ps[1].*...` started at `i`: each piece
      occurs after the previous one, and no gap (what `.*` consumes,
      starting with the stretch from `i` to the first piece) holds a line
      feed. */
  predicate Reach(s: string, i: int, ps: seq<string>)
    decreases |ps|
  {
    0 <= i <= |s|
    && (ps == [] ||
        exists j | i <= j <= |s| :: All(s, i, j, NotNewline) && PieceAt(s, j, ps[0]) && Reach(s, j + |ps[0]|, ps[1..]))
  }

  /** `re.search(pattern, s, re.IGNORECASE)` finds a match. */
  predicate Searches(s: string, ps: seq<string>) {
    exists i: int | 0 <= i <= |s| :: Reach(s, i, ps)
  }

  /** The first position from `i` on the same line where `piece` matches. */
  function FirstPiece(s: string, i: nat, piece: string): (r: Option<nat>)
    requires i <= |s|
    ensures r.Some? ==> i <= r.value <= |s| && All(s, i, r.value, NotNewline) && PieceAt(s, r.value, piece)
    decreases |s| - i
  {
    if PieceAt(s, i, piece) then Some(i)
    else if i == |s| || s[i] == '\n' then None
    else FirstPiece(s, i + 1, piece)
  }

  /** No position before FirstPiece's answer (or no position on the line at
      all, when it has none) matches the piece. */
  lemma {:induction false} FirstPieceIsFirst(s: string, i: nat, piece: string, j: nat)
    requires i <= j <= |s| && All(s, i, j, NotNewline) && PieceAt(s, j, piece)
    ensures FirstPiece(s, i, piece).Some? && FirstPiece(s, i, piece).value <= j
    decreases j - i
  {
    if !PieceAt(s, i, piece) {
      assert i < j && s[i] != '\n';
      FirstPieceIsFirst(s, i + 1, piece, j);
    }
  }

  /** The greedy scanner: take each piece at its first position. */
  function Follows(s: string, i: nat, ps: seq<string>): bool
    requires i <= |s|
    decreases |ps|
  {
    if ps == [] then true
    else match FirstPiece(s, i, ps[0])
      case None => false
      case Some(j) => Follows(s, j + |ps[0]|, ps[1..])
  }

  /** Starting later on the same line can only lose matches. */
  lemma ReachEarlier(s: string, a: int, b: int, ps: seq<string>)
    requires 0 <= a <= b && All(s, a, b, NotNewline) && Reach(s, b, ps)
    ensures Reach(s, a, ps)
  {
    if ps != [] {
      var j :| b <= j <= |s| && All(s, b, j, NotNewline) && PieceAt(s, j, ps[0]) && Reach(s, j + |ps[0]|, ps[1..]);
      assert All(s, a, j, NotNewline);
    }
  }

  /** The rest of a one-line pattern is one-line. */
  lemma OneLineTail(ps: seq<string>)
    requires ps != [] && OneLine(ps)
    ensures OneLine(ps[1..])
  {
    forall k | 0 <= k < |ps[1..]| ensures '\n' !in ps[1..][k] {
      assert ps[1..][k] == ps[k + 1];
    }
  }

  /** What the greedy scanner finds is a regex match. */
  lemma {:induction false} FollowsReaches(s: string, i: nat, ps: seq<string>)
    requires i <= |s| && Follows(s, i, ps)
    ensures Reach(s, i, ps)
    decreases |ps|
  {
    if ps != [] {
      var j := FirstPiece(s, i, ps[0]).value;
      FollowsReaches(s, j + |ps[0]|, ps[1..]);
    }
  }

  /** Taking a piece at its first position never loses a match: the gap
      after it only grows, and a piece holds no line feed. */
  lemma EarliestPieceKeepsMatch(s: string, i: nat, p: string, rest: seq<string>, j: nat)
    requires i <= j <= |s| && All(s, i, j, NotNewline) && PieceAt(s, j, p) && Reach(s, j + |p|, rest)
    requires '\n' !in p
    ensures FirstPiece(s, i, p).Some? && Reach(s, FirstPiece(s, i, p).value + |p|, rest)
  {
    FirstPieceIsFirst(s, i, p, j);
    var j1 := FirstPiece(s, i, p).value;
    forall m | j1 + |p| <= m < j + |p| ensures s[m] != '\n' {
      if m >= j {
        assert CharMatches(p[m - j], s[m]) && p[m - j] in p;
      }
    }
    ReachEarlier(s, j1 + |p|, j + |p|, rest);
  }

  /** Every regex match is found by the greedy scanner. */
  lemma {:induction false} ReachFollows(s: string, i: nat, ps: seq<string>)
    requires i <= |s| && OneLine(ps) && Reach(s, i, ps)
    ensures Follows(s, i, ps)
    decreases |ps|
  {
    if ps != [] {
      var j :| i <= j <= |s| && All(s, i, j, NotNewline) && PieceAt(s, j, ps[0]) && Reach(s, j + |ps[0]|, ps[1..]);
      EarliestPieceKeepsMatch(s, i, ps[0], ps[1..], j);
      OneLineTail(ps);
      ReachFollows(s, FirstPiece(s, i, ps[0]).value + |ps[0]|, ps[1..]);
    }
  }

  /** The greedy scanner agrees with the regex semantics. */
  lemma FollowsIffReach(s: string, i: nat, ps: seq<string>)
    requires i <= |s| && OneLine(ps)
    ensures Follows(s, i, ps) <==> Reach(s, i, ps)
  {
    if Follows(s, i, ps) {
      FollowsReaches(s, i, ps);
    }
    if Reach(s, i, ps) {
      ReachFollows(s, i, ps);
    }
  }

  /** Tries every start position from `k` on. */
  function SearchAny(s: string, k: nat, ps: seq<string>): bool
    requires k <= |s|
    decreases |s| - k
  {
    Follows(s, k, ps) || (k < |s| && SearchAny(s, k + 1, ps))
  }

  /** A regex match starts at `k` or later. */
  predicate ReachFrom(s: string, k: nat, ps: seq<string>) {
    exists i: int | k <= i <= |s| :: Reach(s, i, ps)
  }

  /** A match from `k` on starts at `k` or from `k + 1` on. */
  lemma ReachFromStep(s: string, k: nat, ps: seq<string>)
    requires k < |s|
    ensures ReachFrom(s, k, ps) <==> Reach(s, k, ps) || ReachFrom(s, k + 1, ps)
  {
    if ReachFrom(s, k, ps) && !Reach(s, k, ps) {
      var i: int :| k <= i <= |s| && Reach(s, i, ps);
      assert k + 1 <= i;
    }
    if ReachFrom(s, k + 1, ps) {
      var i: int :| k + 1 <= i <= |s| && Reach(s, i, ps);
      assert k <= i;
    }
  }

  /** The scanner finds a match exactly when the regex does. */
  lemma {:induction false} SearchAnyIffSearches(s: string, k: nat, ps: seq<string>)
    requires k <= |s| && OneLine(ps)
    ensures SearchAny(s, k, ps) <==> ReachFrom(s, k, ps)
    decreases |s| - k
  {
    FollowsIffReach(s, k, ps);
    if k < |s| {
      SearchAnyIffSearches(s, k + 1, ps);
      ReachFromStep(s, k, ps);
    } else if Reach(s, k, ps) {
      assert k <= k <= |s|;
    }
  }

  /** A regex match at `i` is found by the scan from position 0. */
  lemma MatchFound(s: string, ps: seq<string>, i: int)
    requires OneLine(ps) && 0 <= i <= |s| && Reach(s, i, ps)
    ensures SearchAny(s, 0, ps)
  {
    SearchAnyIffSearches(s, 0, ps);
    assert exists j: int | 0 <= j <= |s| :: Reach(s, j, ps);
  }

  /** The scan from position 0 is `re.search`. */
  lemma SearchAnyDecides(s: string, ps: seq<string>)
    requires OneLine(ps)
    ensures SearchAny(s, 0, ps) <==> Searches(s, ps)
  {
    SearchAnyIffSearches(s, 0, ps);
    if SearchAny(s, 0, ps) {
      var i: int :| 0 <= i <= |s| && Reach(s, i, ps);
      assert Searches(s, ps);
    }
    if Searches(s, ps) {
      var i: int :| 0 <= i <= |s| && Reach(s, i, ps);
      MatchFound(s, ps, i);
    }
  }

  /** `LIVE_PATTERNS`, in order. */
  const LivePatterns: seq<seq<string>> := [
    ["youtube.com/live/"],
    ["youtube.com/watch?", "v=", "&", "t="],
    ["youtu.be/", "?", "t="]
  ]

  /** `PLAYLIST_PATTERNS`, in order. */
  const PlaylistPatterns: seq<seq<string>> := [
    ["youtube.com/playlist?list="],
    ["youtube.com/watch?", "list="],
    ["youtube.com/@", "/playlists"],
    ["youtube.com/c/", "/playlists"]
  ]

  predicate AllOneLine(patterns: seq<seq<string>>) {
    forall k | 0 <= k < |patterns| :: OneLine(patterns[k])
  }

  lemma PatternsOneLine()
    ensures AllOneLine(LivePatterns) && AllOneLine(PlaylistPatterns)
  {
  }

  /** Some pattern of the list matches the url. */
  predicate AnyMatches(url: string, patterns: seq<seq<string>>) {
    exists k | 0 <= k < |patterns| :: Searches(url, patterns[k])
  }

  /** `detect_content_type`: live patterns first, then playlist patterns,
      otherwise a single video. */
  function ContentTypeOf(url: string): ContentType {
    if AnyMatches(url, LivePatterns) then Live
    else if AnyMatches(url, PlaylistPatterns) then Playlist
    else Single
  }

  /** The first pattern of `patterns` that matches, searching in order. */
  method FirstMatching(url: string, patterns: seq<seq<string>>) returns (found: bool)
    requires AllOneLine(patterns)
    ensures found <==> AnyMatches(url, patterns)
  {
    var k := 0;
    while k < |patterns|
      invariant 0 <= k <= |patterns|
      invariant forall m | 0 <= m < k :: !Searches(url, patterns[m])
    {
      SearchAnyDecides(url, patterns[k]);
      if SearchAny(url, 0, patterns[k]) {
        return true;
      }
      k := k + 1;
    }
    return false;
  }

  /** `detect_content_type` as the source runs it: two loops over the
      pattern lists with an early return. */
  method DetectContentType(url: string) returns (t: ContentType)
    ensures t == ContentTypeOf(url)
  {
    PatternsOneLine();
    var live := FirstMatching(url, LivePatterns);
    if live {
      return Live;
    }
    var playlist := FirstMatching(url, PlaylistPatterns);
    if playlist {
      return Playlist;
    }
    return Single;
  }

  /** The classification is `playlist` only when no live pattern matches and
      a playlist pattern does, and `single` only when none matches. */
  lemma ContentTypePriority(url: string)
    ensures ContentTypeOf(url) == Live <==> AnyMatches(url, LivePatterns)
    ensures ContentTypeOf(url) == Playlist <==> !AnyMatches(url, LivePatterns) && AnyMatches(url, PlaylistPatterns)
    ensures ContentTypeOf(url) == Single <==> !AnyMatches(url, LivePatterns) && !AnyMatches(url, PlaylistPatterns)
  {
  }

  /** A match survives any text put around the url: the search is not
      anchored. */
  lemma {:induction false} ReachShifted(s: string, i: int, ps: seq<string>, a: string, b: string)
    requires Reach(s, i, ps)
    ensures Reach(a + s + b, |a| + i, ps)
    decreases |ps|
  {
    var t := a + s + b;
    if ps != [] {
      var j :| i <= j <= |s| && All(s, i, j, NotNewline) && PieceAt(s, j, ps[0]) && Reach(s, j + |ps[0]|, ps[1..]);
      ReachShifted(s, j + |ps[0]|, ps[1..], a, b);
      assert forall m | 0 <= m < |s| :: t[|a| + m] == s[m];
      assert All(t, |a| + i, |a| + j, NotNewline);
      assert PieceAt(t, |a| + j, ps[0]);
    }
  }

  lemma SearchesUnanchored(s: string, ps: seq<string>, a: string, b: string)
    requires Searches(s, ps)
    ensures Searches(a + s + b, ps)
  {
    var i :| 0 <= i <= |s| && Reach(s, i, ps);
    ReachShifted(s, i, ps, a, b);
  }

  /** Upper-casing the ASCII letters of a url never changes its
      classification's matches: the search ignores case. */
  lemma {:induction false} ReachUpper(s: string, i: int, ps: seq<string>)
    requires Reach(s, i, ps)
    ensures Reach(AsciiUpper(s), i, ps)
    decreases |ps|
  {
    var u := AsciiUpper(s);
    if ps != [] {
      var j :| i <= j <= |s| && All(s, i, j, NotNewline) && PieceAt(s, j, ps[0]) && Reach(s, j + |ps[0]|, ps[1..]);
      ReachUpper(s, j + |ps[0]|, ps[1..]);
      forall m | 0 <= m < |ps[0]| ensures CharMatches(ps[0][m], u[j + m]) {
        assert CharMatches(ps[0][m], s[j + m]);
      }
      assert All(u, i, j, NotNewline);
    }
  }

  lemma SearchesIgnoresCase(s: string, ps: seq<string>)
    requires Searches(s, ps)
    ensures Searches(AsciiUpper(s), ps)
  {
    var i :| 0 <= i <= |s| && Reach(s, i, ps);
    ReachUpper(s, i, ps);
  }

  /** A piece in front of text that matches the rest of a pattern. */
  lemma PieceThen(p: string, x: string, ps: seq<string>)
    requires Reach(x, 0, ps)
    ensures Reach(p + x, 0, [p] + ps)
  {
    ReachShifted(x, 0, ps, p, "");
    assert p + x + "" == p + x;
    forall m | 0 <= m < |p| ensures CharMatches(p[m], (p + x)[m]) {
    }
    var qs := [p] + ps;
    assert qs[0] == p && qs[1..] == ps;
    assert All(p + x, 0, 0, NotNewline) && PieceAt(p + x, 0, qs[0]) && Reach(p + x, 0 + |qs[0]|, qs[1..]);
  }

  /** A gap without a line feed in front of text that matches a pattern. */
  lemma GapThen(g: string, x: string, ps: seq<string>)
    requires Reach(x, 0, ps) && All(g, 0, |g|, NotNewline)
    ensures Reach(g + x, 0, ps)
  {
    ReachShifted(x, 0, ps, g, "");
    assert g + x + "" == g + x;
    assert All(g + x, 0, |g|, NotNewline);
    ReachEarlier(g + x, 0, |g|, ps);
  }

  /** A watch url of the shape `...youtube.com/watch?...v=...&...t=...list=...`. */
  function WatchUrl(pre: string, a: string, b: string, c: string, e: string, f: string): string {
    pre + ("youtube.com/watch?" + (a + ("v=" + (b + ("&" + (c + ("t=" + (e + ("list=" + f)))))))))
  }

  /** The time-stamp pattern `youtube.com/watch?.*v=.*&.*t=.*` matches a
      watch url. */
  lemma WatchUrlWithTime(pre: string, a: string, b: string, c: string, e: string, f: string)
    requires All(a, 0, |a|, NotNewline) && All(b, 0, |b|, NotNewline) && All(c, 0, |c|, NotNewline)
    ensures Searches(WatchUrl(pre, a, b, c, e, f), LivePatterns[1])
  {
    var watch := "youtube.com/watch?";
    var tail := "t=" + (e + ("list=" + f));
    var amp := "&" + (c + tail);
    var vee := "v=" + (b + amp);
    PieceThen("t=", e + ("list=" + f), []);
    GapThen(c, tail, ["t="]);
    PieceThen("&", c + tail, ["t="]);
    GapThen(b, amp, ["&", "t="]);
    PieceThen("v=", b + amp, ["&", "t="]);
    GapThen(a, vee, ["v=", "&", "t="]);
    PieceThen(watch, a + vee, ["v=", "&", "t="]);
    ReachShifted(watch + (a + vee), 0, LivePatterns[1], pre, "");
    assert WatchUrl(pre, a, b, c, e, f) + "" == WatchUrl(pre, a, b, c, e, f);
  }

  /** The list pattern `youtube.com/watch?.*list=` matches a watch url. */
  lemma WatchUrlWithList(pre: string, a: string, b: string, c: string, e: string, f: string)
    requires All(a, 0, |a|, NotNewline) && All(b, 0, |b|, NotNewline)
    requires All(c, 0, |c|, NotNewline) && All(e, 0, |e|, NotNewline)
    ensures Searches(WatchUrl(pre, a, b, c, e, f), PlaylistPatterns[1])
  {
    var watch := "youtube.com/watch?";
    var lf := "list=" + f;
    var tail := "t=" + (e + lf);
    var amp := "&" + (c + tail);
    var vee := "v=" + (b + amp);
    assert All("t=", 0, 2, NotNewline) && All("&", 0, 1, NotNewline) && All("v=", 0, 2, NotNewline);
    PieceThen("list=", f, []);
    GapThen(e, lf, ["list="]);
    GapThen("t=", e + lf, ["list="]);
    GapThen(c, tail, ["list="]);
    GapThen("&", c + tail, ["list="]);
    GapThen(b, amp, ["list="]);
    GapThen("v=", b + amp, ["list="]);
    GapThen(a, vee, ["list="]);
    PieceThen(watch, a + vee, ["list="]);
    ReachShifted(watch + (a + vee), 0, PlaylistPatterns[1], pre, "");
    assert WatchUrl(pre, a, b, c, e, f) + "" == WatchUrl(pre, a, b, c, e, f);
  }

  /** A watch url with a time stamp also names a list, so it matches a
      playlist pattern too; it is classified live all the same, because the
      live patterns are tried first. */
  lemma WatchWithTimeAndListIsLive(pre: string, a: string, b: string, c: string, e: string, f: string)
    requires All(a, 0, |a|, NotNewline) && All(b, 0, |b|, NotNewline)
    requires All(c, 0, |c|, NotNewline) && All(e, 0, |e|, NotNewline)
    ensures AnyMatches(WatchUrl(pre, a, b, c, e, f), PlaylistPatterns)
    ensures ContentTypeOf(WatchUrl(pre, a, b, c, e, f)) == Live
  {
    WatchUrlWithTime(pre, a, b, c, e, f);
    WatchUrlWithList(pre, a, b, c, e, f);
  }

  // ---------------------------------------------------------------------
  // analyze_url

  /** The extra keys `analyze_url` merges into its result. */
  datatype Details =
    | LiveDetails(status: LiveStatus)
    | PlaylistDetails(info: PlaylistInfo)
    | FormatDetails(formats: seq<DisplayFormat>)
    | NoDetails

  /** The result dictionary of `analyze_url`. */
  datatype Analysis = Analysis(
    success: bool,
    url: string,
    contentType: ContentType,
    analyzedAt: string,
    error: Option<string>,
    details: Details)

  /** The analysis started before any probe. */
  function Started(url: string, stamp: string): Analysis {
    Analysis(true, url, ContentTypeOf(url), stamp, None, NoDetails)
  }

  /** `result.update(live_info)`: the live probe reports its own errors, so
      `success` stays true even then. */
  function MergeLive(r: Analysis, status: LiveStatus): Analysis {
    match status
    case LiveError(m) => r.(error := Some(m), details := LiveDetails(status))
    case LiveInfo(_, _, _, _, _, _, _, _) => r.(details := LiveDetails(status))
  }

  /** `result.update(playlist_info)`: the playlist result carries its own
      `success` flag. */
  function MergePlaylist(r: Analysis, info: PlaylistInfo): Analysis {
    match info
    case PlaylistFailed(m) => r.(success := false, error := Some(m), details := PlaylistDetails(info))
    case PlaylistOk(_, _, _, _, _, _) => r.(details := PlaylistDetails(info))
  }

  /** `analyze_url` as written. For a single video it calls
      `get_available_formats(url, cookie_browser)`, one argument too many;
      the TypeError is caught and reported as the analysis error. */
  function AnalyzeUrlAsWritten(url: string, stamp: string, live: LiveStatus, playlist: PlaylistProbe): Analysis {
    var r := Started(url, stamp);
    match r.contentType
    case Live => MergeLive(r, live)
    case Playlist => MergePlaylist(r, PlaylistInfoOf(playlist, DefaultMaxEntries))
    case Single => r.(success := false, error := Some(ArityError))
  }

  /** Every single-video url is reported as a failure, whatever the video. */
  lemma SingleAnalysisAlwaysFails(url: string, stamp: string, live: LiveStatus, playlist: PlaylistProbe)
    requires ContentTypeOf(url) == Single
    ensures !AnalyzeUrlAsWritten(url, stamp, live, playlist).success
    ensures AnalyzeUrlAsWritten(url, stamp, live, playlist).error == Some(ArityError)
  {
  }

  /** `analyze_url` with the single-video probe called on the url alone. */
  function AnalyzeUrl(url: string, stamp: string, live: LiveStatus, playlist: PlaylistProbe, formats: Probe): (r: Analysis)
    ensures r.url == url && r.contentType == ContentTypeOf(url) && r.analyzedAt == stamp
    ensures r.contentType == Live ==>
              r.success && r.details == LiveDetails(live) && (r.error.Some? <==> live.LiveError?)
    ensures r.contentType == Playlist ==>
              (r.success <==> PlaylistInfoOf(playlist, DefaultMaxEntries).PlaylistOk?)
              && r.details == PlaylistDetails(PlaylistInfoOf(playlist, DefaultMaxEntries))
    ensures r.contentType == Single ==>
              (r.success <==> AvailableFormats(formats).FormatsOk?)
              && (r.success ==> r.details == FormatDetails(AvailableFormats(formats).formats))
              && (!r.success ==> r.error == Some(AvailableFormats(formats).error))
  {
    var r := Started(url, stamp);
    match r.contentType
    case Live => MergeLive(r, live)
    case Playlist => MergePlaylist(r, PlaylistInfoOf(playlist, DefaultMaxEntries))
    case Single =>
      match AvailableFormats(formats)
      case FormatsOk(fs) => r.(details := FormatDetails(fs))
      case FormatsFailed(m) => r.(success := false, error := Some(m))
  }
}
