/** The download-side helpers of `app/ytdlp_handler.py`: the argument vector
    for an ordinary download, and the format list offered to the user,
    which pairs every video-only format with the best audio-only one. The
    yt-dlp probe (`extract_info`) is an input: the formats it reports, or the
    message of the exception it raised. */
module YtDlpHandler {
  import opened Text
  import opened Wrappers
  import opened Entities
  import opened Lists

  /** The output file name template of an ordinary download. */
  const OutputTemplate: string := "%(title)s.%(ext)s"

  /** `options.get('savePath', DOWNLOADS_DIR)`: an absent path falls back to
      the downloads directory, an empty one is kept. */
  function SaveDir(o: Options): string {
    o.savePath.GetOr(DownloadsDir)
  }

  /** `options.get('cookieBrowser')` as it lands in the argument vector. */
  function BrowserArg(b: Option<string>): Arg {
    match b
    case Some(v) => Str(v)
    case None => NoneValue
  }

  /** The six arguments every download command starts with. */
  function CommandHead(url: string, o: Options, template: string): seq<Arg> {
    [Str(YtDlpPath), Str(url), Str("--progress"), Str("-o"), Str(PathJoin(SaveDir(o), template)), Str("--windows-filenames")]
  }

  /** A selected format other than the `custom` placeholder is used. */
  predicate UsesSelectedFormat(o: Options) {
    Truthy(o.selectedFormat) && o.selectedFormat.value != "custom"
  }

  /** The arguments that extract audio. */
  function AudioArgs(o: Options): seq<Arg> {
    [Str("-x"), Str("--audio-format"), Str(o.audioFormat.GetOr("best")), Str("-f"), Str("bestaudio/best")]
  }

  function FormatArgs(o: Options): seq<Arg> {
    if UsesSelectedFormat(o) then [Str("-f"), Str(o.selectedFormat.value)]
    else if o.audioOnly then AudioArgs(o)
    else []
  }

  /** Browser cookies are asked for: no custom argument supplies cookies and
      the browser setting is not the string `none`. */
  predicate WantsCookies(o: Options) {
    !HasCookieArg(o.customArgs) && o.cookieBrowser != Some("none")
  }

  function CookieArgs(o: Options): seq<Arg> {
    if WantsCookies(o) then [Str("--cookies-from-browser"), BrowserArg(o.cookieBrowser)] else []
  }

  function CookieCount(o: Options): nat {
    if WantsCookies(o) then 2 else 0
  }

  /** Everything before the custom arguments. */
  function ChosenArgs(url: string, o: Options): seq<Arg> {
    CommandHead(url, o, OutputTemplate) + FormatArgs(o) + CookieArgs(o)
  }

  /** `build_download_command` for an item with this url and these options. */
  function DownloadCommand(url: string, o: Options): seq<Arg> {
    ChosenArgs(url, o) + Strs(o.customArgs)
  }

  /** Grows the command list step by step, as the source does with
      `extend`. */
  method BuildDownloadCommand(url: string, options: Options) returns (command: seq<Arg>)
    ensures command == DownloadCommand(url, options)
  {
    command := CommandHead(url, options, OutputTemplate);
    if UsesSelectedFormat(options) {
      command := command + [Str("-f"), Str(options.selectedFormat.value)];
    } else if options.audioOnly {
      command := command + AudioArgs(options);
    }
    var hasCookieArg := FindCookieArg(options.customArgs);
    if !hasCookieArg && options.cookieBrowser != Some("none") {
      command := command + [Str("--cookies-from-browser"), BrowserArg(options.cookieBrowser)];
    }
    command := command + Strs(options.customArgs);
  }

  /** The six leading arguments, one by one: the output path lies inside the
      save directory and ends with the template. */
  lemma CommandHeadShape(url: string, o: Options, template: string)
    ensures var h := CommandHead(url, o, template);
            |h| == 6 && h[0] == Str(YtDlpPath) && h[1] == Str(url) && h[2] == Str("--progress")
            && h[3] == Str("-o") && h[5] == Str("--windows-filenames")
            && h[4].Str? && StartsWith(h[4].text, SaveDir(o))
            && |template| <= |h[4].text|
            && h[4].text[|h[4].text| - |template|..] == template
  {
  }

  /** The command starts with the downloader, the url, progress output and an
      output path inside the save directory that ends with the template. */
  lemma DownloadCommandHead(url: string, o: Options)
    ensures var c := DownloadCommand(url, o);
            |c| >= 6 && c[..6] == CommandHead(url, o, OutputTemplate)
            && c[0] == Str(YtDlpPath) && c[1] == Str(url) && c[2] == Str("--progress")
            && c[3] == Str("-o") && c[5] == Str("--windows-filenames")
            && c[4].Str? && StartsWith(c[4].text, SaveDir(o))
            && |OutputTemplate| <= |c[4].text|
            && c[4].text[|c[4].text| - |OutputTemplate|..] == OutputTemplate
  {
    var head := CommandHead(url, o, OutputTemplate);
    var rest := FormatArgs(o) + CookieArgs(o) + Strs(o.customArgs);
    assert DownloadCommand(url, o) == head + rest;
    FrontKept(head, rest);
    CommandHeadShape(url, o, OutputTemplate);
  }

  /** The custom arguments close the command, in their original order. */
  lemma DownloadCommandTail(url: string, o: Options)
    ensures var c := DownloadCommand(url, o);
            |c| >= 6 + |o.customArgs|
            && forall i | 0 <= i < |o.customArgs| :: c[|c| - |o.customArgs| + i] == Str(o.customArgs[i])
  {
    var c := DownloadCommand(url, o);
    var front := ChosenArgs(url, o);
    var tail := Strs(o.customArgs);
    assert |CommandHead(url, o, OutputTemplate)| == 6;
    forall i | 0 <= i < |o.customArgs| ensures c[|c| - |o.customArgs| + i] == Str(o.customArgs[i]) {
      assert c[|front| + i] == tail[i];
    }
  }

  /** A usable selected format is the only format argument: audio-only mode
      adds nothing then. */
  lemma SelectedFormatWins(url: string, o: Options)
    requires UsesSelectedFormat(o)
    ensures var c := DownloadCommand(url, o);
            |c| == 8 + CookieCount(o) + |o.customArgs|
            && c[6] == Str("-f") && c[7] == Str(o.selectedFormat.value)
  {
  }

  /** Without a usable selected format, audio-only mode adds the extraction
      arguments, with `best` as the default audio format. */
  lemma AudioOnlyArgs(url: string, o: Options)
    requires !UsesSelectedFormat(o) && o.audioOnly
    ensures var c := DownloadCommand(url, o);
            |c| == 11 + CookieCount(o) + |o.customArgs|
            && c[6..11] == [Str("-x"), Str("--audio-format"), Str(o.audioFormat.GetOr("best")), Str("-f"), Str("bestaudio/best")]
  {
    var c := DownloadCommand(url, o);
    assert c[6..11] == AudioArgs(o);
  }

  /** With neither, no format argument is added. */
  lemma NoFormatArgs(url: string, o: Options)
    requires !UsesSelectedFormat(o) && !o.audioOnly
    ensures |DownloadCommand(url, o)| == 6 + CookieCount(o) + |o.customArgs|
  {
  }

  /** The cookie pair comes just before the custom arguments, exactly when
      cookies are wanted. */
  lemma CookieRule(url: string, o: Options)
    ensures var c := DownloadCommand(url, o);
            var k := |c| - |o.customArgs| - 2;
            WantsCookies(o) ==> k >= 6 && c[k] == Str("--cookies-from-browser") && c[k + 1] == BrowserArg(o.cookieBrowser)
  {
  }

  // ---------------------------------------------------------------------
  // Formats

  /** A key of a format dictionary that may be absent, present with `None`,
      or present with a number. */
  datatype Field = Absent | Null | Value(n: int)

  /** One entry of the probe's `formats` list. `formatNote` is `''` when the
      note is absent or `None`. */
  datatype FormatInfo = FormatInfo(
    formatId: string,
    ext: string,
    vcodec: Option<string>,
    acodec: Option<string>,
    height: Field,
    formatNote: string,
    fps: Option<int>,
    filesize: Option<nat>,
    filesizeApprox: Option<nat>,
    abr: Option<real>)

  /** What the probe gave: the formats it found, or the text of the exception
      it raised. */
  datatype Probe = ProbeOk(formats: seq<FormatInfo>) | ProbeFailed(message: string)

  /** One entry of the format list offered to the user. */
  datatype DisplayFormat = DisplayFormat(
    id: string,
    ext: string,
    resolution: string,
    note: string,
    fps: Option<int>,
    filesize: Option<nat>)

  /** `{'success': True, 'formats': ...}` or `{'success': False, 'error': ...}`. */
  datatype FormatsResult = FormatsOk(formats: seq<DisplayFormat>) | FormatsFailed(error: string)

  /** The text of the TypeError raised by sorting with a `None` key. The
      exact operand order in the message is not modelled. */
  const NoneKeyError: string := "'<' not supported between instances of 'NoneType' and 'int'"

  predicate IsVideoOnly(f: FormatInfo) {
    f.vcodec != Some("none") && f.acodec == Some("none")
  }

  predicate IsAudioOnly(f: FormatInfo) {
    f.acodec != Some("none") && f.vcodec == Some("none")
  }

  /** The video sort key `f.get('height', 0)`. */
  function HeightKey(f: FormatInfo): Option<real> {
    match f.height
    case Absent => Some(0.0)
    case Null => None
    case Value(h) => Some(h as real)
  }

  /** The audio sort key: `abr` is always stored, possibly as `None`. */
  function AbrKey(f: FormatInfo): Option<real> {
    f.abr
  }

  /** `f.get('filesize') or f.get('filesize_approx')`. */
  function Size(f: FormatInfo): Option<nat> {
    if f.filesize.Some? && f.filesize.value != 0 then f.filesize else f.filesizeApprox
  }

  /** `a / d` rounded to the nearest integer, ties to the even one. */
  function RoundHalfEven(a: nat, d: nat): nat
    requires d > 0
  {
    var q := a / d;
    if 2 * (a % d) > d || (2 * (a % d) == d && q % 2 == 1) then q + 1 else q
  }

  /** The rounded quotient is within half a unit of the exact one, and an
      exact tie goes to the even neighbour. */
  lemma RoundHalfEvenClose(a: nat, d: nat)
    requires d > 0
    ensures var q := RoundHalfEven(a, d);
            2 * (a - q * d) <= d && 2 * (q * d - a) <= d
            && (2 * (a - q * d) == d || 2 * (q * d - a) == d ==> q % 2 == 0)
  {
    var q0 := a / d;
    var rem := a % d;
    assert a == q0 * d + rem;
    assert (q0 + 1) * d == q0 * d + d;
  }

  /** `f"{n / 1024 / 1024:.1f}"`: the size in mebibytes with one decimal.
      Dividing by powers of two is exact, so the decimal is the exact
      quotient rounded half to even. */
  function MegabyteText(n: nat): (r: string)
    ensures '.' in r
  {
    var tenths := RoundHalfEven(10 * n, 1048576);
    NatToString(tenths / 10) + "." + [DigitChar(tenths % 10)]
  }

  /** The number MegabyteText writes, read back as a count of tenths, is
      within 0.05 of the size in mebibytes. */
  lemma MegabyteTextClose(n: nat)
    ensures var tenths := RoundHalfEven(10 * n, 1048576);
            var r := MegabyteText(n);
            r == NatToString(tenths / 10) + "." + [DigitChar(tenths % 10)]
            && DigitsValue(r[..|r| - 2]) * 10 + DigitsValue(r[|r| - 1..]) == tenths
            && 20 * (10 * n - tenths * 1048576) <= 10 * 1048576
            && 20 * (tenths * 1048576 - 10 * n) <= 10 * 1048576
  {
    var tenths := RoundHalfEven(10 * n, 1048576);
    RoundHalfEvenClose(10 * n, 1048576);
    var r := MegabyteText(n);
    var whole := NatToString(tenths / 10);
    assert r[..|r| - 2] == whole;
    NatToStringRoundTrip(tenths / 10);
    assert r[|r| - 1..] == [DigitChar(tenths % 10)];
    assert DigitsValue(r[|r| - 1..]) == DigitsValue([]) * 10 + tenths % 10;
  }

  function SizeText(size: Option<nat>): string {
    if size.Some? && size.value != 0 then " (" + MegabyteText(size.value) + "MB)" else ""
  }

  function FpsText(fps: Option<int>): string {
    if fps.Some? && fps.value != 0 then " @" + IntToString(fps.value) + "fps" else ""
  }

  function NoteText(note: string): string {
    if note != "" then " - " + note else ""
  }

  /** `str()` of the stored resolution. */
  function HeightText(h: Field): string {
    match h
    case Absent => "0"
    case Null => "None"
    case Value(n) => IntToString(n)
  }

  /** The display entry for video-only format `f` paired with audio `best`. */
  function DisplayOf(f: FormatInfo, best: string): DisplayFormat {
    DisplayFormat(
      f.formatId + "+" + best,
      f.ext,
      HeightText(f.height) + "p",
      AsciiUpper(f.ext) + FpsText(f.fps) + SizeText(Size(f)) + NoteText(f.formatNote),
      f.fps,
      Size(f))
  }

  /** The display list, one entry per video format, in the same order. */
  function Pairings(videos: seq<FormatInfo>, best: string): seq<DisplayFormat> {
    Map(videos, v => DisplayOf(v, best))
  }

  /** The video-only formats, highest first. */
  function SortedVideo(fs: seq<FormatInfo>): seq<FormatInfo> {
    SortDesc(Keep(fs, IsVideoOnly), KeyOr(HeightKey))
  }

  /** The audio-only formats, highest bitrate first. */
  function SortedAudio(fs: seq<FormatInfo>): seq<FormatInfo> {
    SortDesc(Keep(fs, IsAudioOnly), KeyOr(AbrKey))
  }

  /** The id of the first audio-only format after the sort, or the selector
      `bestaudio` when there is none. */
  function BestAudio(fs: seq<FormatInfo>): string {
    var audio := SortedAudio(fs);
    if audio == [] then "bestaudio" else audio[0].formatId
  }

  /** `get_available_formats` on the probe's outcome. */
  function AvailableFormats(probe: Probe): FormatsResult {
    match probe
    case ProbeFailed(m) => FormatsFailed(m)
    case ProbeOk(fs) =>
      if SortRaises(Keep(fs, IsVideoOnly), HeightKey) || SortRaises(Keep(fs, IsAudioOnly), AbrKey) then
        FormatsFailed(NoneKeyError)
      else FormatsOk(Pairings(SortedVideo(fs), BestAudio(fs)))
  }

  /** The `append` loop over the probe's formats that keeps those `keep`
      accepts. */
  method Collect(fs: seq<FormatInfo>, keep: FormatInfo -> bool) returns (kept: seq<FormatInfo>)
    ensures kept == Keep(fs, keep)
  {
    kept := [];
    var i := 0;
    while i < |fs|
      invariant 0 <= i <= |fs|
      invariant kept == Keep(fs[..i], keep)
    {
      assert fs[..i + 1][..i] == fs[..i];
      if keep(fs[i]) {
        kept := kept + [fs[i]];
      }
      i := i + 1;
    }
    assert fs[..i] == fs;
  }

  /** The body of `get_available_formats`: filter, sort, pick the best audio
      and build the display list, turning every exception into a failure
      result. */
  method GetAvailableFormats(probe: Probe) returns (r: FormatsResult)
    ensures r == AvailableFormats(probe)
  {
    if probe.ProbeFailed? {
      return FormatsFailed(probe.message);
    }
    var fs := probe.formats;
    var videos := Collect(fs, IsVideoOnly);
    var sortedVideo := SortByKeyDesc(videos, HeightKey);
    if sortedVideo.None? {
      return FormatsFailed(NoneKeyError);
    }
    var audios := Collect(fs, IsAudioOnly);
    var sortedAudio := SortByKeyDesc(audios, AbrKey);
    if sortedAudio.None? {
      return FormatsFailed(NoneKeyError);
    }
    var best := if sortedAudio.value == [] then "bestaudio" else sortedAudio.value[0].formatId;
    var formats := MapLoop(sortedVideo.value, v => DisplayOf(v, best));
    return FormatsOk(formats);
  }

  /** The result is a failure exactly when the probe failed (its message is
      passed on) or one of the two sorts met a `None` key. */
  lemma FormatsFailure(probe: Probe)
    ensures var r := AvailableFormats(probe);
            (r.FormatsFailed? <==>
               (probe.ProbeFailed?
                || SortRaises(Keep(probe.formats, IsVideoOnly), HeightKey)
                || SortRaises(Keep(probe.formats, IsAudioOnly), AbrKey)))
            && (probe.ProbeFailed? ==> r == FormatsFailed(probe.message))
  {
  }

  /** One display entry per video-only format, highest first with ties in
      probe order; every id pairs the video format with the best audio and
      every resolution is the height followed by `p`. */
  lemma FormatsPairing(fs: seq<FormatInfo>)
    requires AvailableFormats(ProbeOk(fs)).FormatsOk?
    ensures var out := AvailableFormats(ProbeOk(fs)).formats;
            var vs := SortedVideo(fs);
            |out| == |vs| == |Keep(fs, IsVideoOnly)|
            && multiset(vs) == multiset(Keep(fs, IsVideoOnly))
            && SortedDesc(vs, KeyOr(HeightKey))
            && (forall h :: WithKey(vs, KeyOr(HeightKey), h) == WithKey(Keep(fs, IsVideoOnly), KeyOr(HeightKey), h))
            && forall i | 0 <= i < |out| ::
                 IsVideoOnly(vs[i]) && vs[i] in fs
                 && out[i].id == vs[i].formatId + "+" + BestAudio(fs)
                 && out[i].resolution == HeightText(vs[i].height) + "p"
  {
    var videos := Keep(fs, IsVideoOnly);
    var key := KeyOr(HeightKey);
    SortDescPermutes(videos, key);
    SortDescSorted(videos, key);
    forall h ensures WithKey(SortDesc(videos, key), key, h) == WithKey(videos, key, h) {
      SortDescStable(videos, key, h);
    }
    var vs := SortedVideo(fs);
    forall i | 0 <= i < |vs| ensures IsVideoOnly(vs[i]) && vs[i] in fs
      && Pairings(vs, BestAudio(fs))[i] == DisplayOf(vs[i], BestAudio(fs)) {
      assert vs[i] in multiset(videos);
      MapAt(vs, v => DisplayOf(v, BestAudio(fs)), i);
    }
  }

  /** The paired audio format is an audio-only format of the probe with the
      highest bitrate, and the first such in probe order; without audio-only
      formats the generic `bestaudio` selector is used. */
  lemma BestAudioIsBest(fs: seq<FormatInfo>)
    ensures var audios := Keep(fs, IsAudioOnly);
            var key := KeyOr(AbrKey);
            (audios == [] ==> BestAudio(fs) == "bestaudio")
            && (audios != [] ==>
                  exists a :: a in audios && BestAudio(fs) == a.formatId
                    && (forall i | 0 <= i < |audios| :: key(audios[i]) <= key(a))
                    && WithKey(audios, key, key(a)) != [] && WithKey(audios, key, key(a))[0] == a)
  {
    var audios := Keep(fs, IsAudioOnly);
    if audios != [] {
      SortDescHead(audios, KeyOr(AbrKey));
      var a := SortedAudio(fs)[0];
      assert a in audios;
    }
  }
}
