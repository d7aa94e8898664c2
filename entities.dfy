/** The values the back end passes around: the options a user submits with
    a download, the argument vector handed to the downloader, item
    statuses and content types, and the fixed paths of an installation. */
module Entities {
  import opened Text
  import opened Wrappers

  /** The state of one queue entry. */
  datatype Status = Waiting | WaitingForLive | Downloading | Completed | Error | Cancelled

  /** What `detect_content_type` calls a URL. */
  datatype ContentType = Live | Playlist | Single

  /** What `check_live_status` reports about a stream: its state as the
      probe saw it, or the text of the exception the probe raised. */
  datatype LiveStatus =
    | LiveInfo(isLive: bool, wasLive: bool, liveStatus: Option<string>, title: string,
               duration: Option<int>, startTime: Option<int>, uploader: string, description: string)
    | LiveError(message: string)

  /** `live_status.get('is_live')` is truthy. */
  predicate IsLiveNow(s: LiveStatus) {
    s.LiveInfo? && s.isLive
  }

  /** The options dictionary sent by the browser. A key that is absent is
      `None`; `customArgs` is the custom-argument string already split into
      words as `shlex.split` splits it (empty when the key is absent). */
  datatype Options = Options(
    savePath: Option<string>,
    selectedFormat: Option<string>,
    videoFormat: Option<string>,
    audioOnly: bool,
    audioFormat: Option<string>,
    cookieBrowser: Option<string>,
    customArgs: seq<string>,
    liveMode: Option<string>)

  /** Python truthiness of an optional string: present and non-empty. */
  predicate Truthy(o: Option<string>) {
    o.Some? && o.value != ""
  }

  /** One element of an argument vector. `options.get('cookieBrowser')`
      puts Python's `None` in the vector when the key is absent. */
  datatype Arg = Str(text: string) | NoneValue

  /** Strings as argument-vector elements. */
  function Strs(xs: seq<string>): (r: seq<Arg>)
    ensures |r| == |xs| && forall i | 0 <= i < |xs| :: r[i] == Str(xs[i])
  {
    seq(|xs|, i requires 0 <= i < |xs| => Str(xs[i]))
  }

  /** Appending to a vector keeps its front. */
  lemma FrontKept(front: seq<Arg>, rest: seq<Arg>)
    ensures |front + rest| == |front| + |rest| && (front + rest)[..|front|] == front
    ensures forall k | 0 <= k < |front| :: (front + rest)[k] == front[k]
  {
  }

  /** The directory the program is installed in (the parent of the
      `app` package); the real value depends on the machine. */
  const InstallDir: string := "C:\\GUI-ytdlp"

  function IsSep(c: char): bool { c == '\\' || c == '/' }

  /** `ntpath.join(a, b)` for a relative `b` without a drive: a separator is
      put between the two unless `a` is empty, already ends with a
      separator, or is a bare drive such as `C:`. */
  function PathJoin(a: string, b: string): (r: string)
    ensures StartsWith(r, a) && |b| <= |r| && r[|r| - |b|..] == b
    ensures |r| == |a| + |b| || (|r| == |a| + 1 + |b| && r[|a|] == '\\')
    ensures |r| == |a| + |b| <==> a == [] || IsSep(a[|a| - 1]) || (|a| == 2 && a[1] == ':')
  {
    if a == [] || IsSep(a[|a| - 1]) || (|a| == 2 && a[1] == ':') then a + b
    else a + "\\" + b
  }

  /** `TOOLS_DIR`, `DOWNLOADS_DIR` and `YT_DLP_PATH`, written out. */
  const ToolsDir: string := "C:\\GUI-ytdlp\\tools"
  const DownloadsDir: string := "C:\\GUI-ytdlp\\downloads"
  const YtDlpPath: string := "C:\\GUI-ytdlp\\tools\\yt-dlp.exe"

  /** The written-out paths are the joins the configuration makes. */
  lemma PathsJoined()
    ensures ToolsDir == PathJoin(InstallDir, "tools")
    ensures DownloadsDir == PathJoin(InstallDir, "downloads")
    ensures YtDlpPath == PathJoin(ToolsDir, "yt-dlp.exe")
  {
    assert |InstallDir| == 12 && InstallDir[11] == 'p';
    assert ToolsDir == InstallDir + "\\" + "tools";
    assert DownloadsDir == InstallDir + "\\" + "downloads";
    assert |ToolsDir| == 18 && ToolsDir[17] == 's';
    assert YtDlpPath == ToolsDir + "\\" + "yt-dlp.exe";
  }

  /** `info.get('description', '')[:200] + '...'` for a non-empty
      description, `''` otherwise. */
  function ShortDescription(d: Option<string>): (r: string)
    ensures d.None? || d.value == [] ==> r == ""
    ensures d.Some? && d.value != [] ==>
              4 <= |r| <= 203 && |r| - 3 <= |d.value|
              && r[|r| - 3..] == "..." && r[..|r| - 3] == d.value[..|r| - 3]
              && (|d.value| <= 200 ==> |r| == |d.value| + 3) && (|d.value| > 200 ==> |r| == 203)
  {
    if d.Some? && d.value != [] then
      (if |d.value| <= 200 then d.value else d.value[..200]) + "..."
    else ""
  }

  /** `arg.lstrip('-')`. */
  function LStripDashes(s: string): (r: string)
    ensures |r| <= |s| && (r == [] || r[0] != '-')
    ensures forall i | 0 <= i < |r| :: r[i] == s[|s| - |r| + i]
    ensures forall i | 0 <= i < |s| - |r| :: s[i] == '-'
  {
    if s != [] && s[0] == '-' then
      var r := LStripDashes(s[1..]);
      assert forall i | 1 <= i < |s| :: s[i] == s[1..][i - 1];
      r
    else s
  }

  /** A custom argument that already supplies cookies. */
  predicate IsCookieArg(arg: string) {
    LStripDashes(arg) == "cookies" || LStripDashes(arg) == "cookies-from-browser"
  }

  /** Some custom argument supplies cookies. */
  predicate HasCookieArg(args: seq<string>) {
    exists i | 0 <= i < |args| :: IsCookieArg(args[i])
  }

  /** Scans the custom arguments for one that supplies cookies, as the
      `any(...)` generator does, stopping at the first. */
  method FindCookieArg(args: seq<string>) returns (found: bool)
    ensures found <==> HasCookieArg(args)
  {
    var i := 0;
    found := false;
    while i < |args| && !found
      invariant 0 <= i <= |args|
      invariant found ==> HasCookieArg(args)
      invariant !found ==> forall j | 0 <= j < i :: !IsCookieArg(args[j])
    {
      found := IsCookieArg(args[i]);
      i := i + 1;
    }
  }
}
