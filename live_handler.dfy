/** `LiveHandler` of `app/app/live_handler.py`: the argument vector for a
    live stream and the warning added to high-resolution formats. */
module LiveHandler {
  import opened Text
  import opened Wrappers
  import opened Entities
  import opened YtDlpHandler

  /** The output file name template of a live download. */
  const LiveTemplate: string := "%(title)s_%(upload_date)s_%(id)s.%(ext)s"

  /** The warning appended to the note of a format that may be unstable on a
      live stream. */
  const LiveWarning: string := " [ライブでは不安定になる可能性あり]"

  /** What the live probe (`extract_info` without download) gave: the
      keys of the info dictionary, `None` where a key is absent, or the text
      of the exception it raised. */
  datatype LiveProbe =
    | LiveProbed(isLive: Option<bool>, wasLive: Option<bool>, liveStatus: Option<string>, title: Option<string>,
                 duration: Option<int>, releaseTimestamp: Option<int>, uploader: Option<string>,
                 description: Option<string>)
    | LiveProbeFailed(message: string)

  /** `check_live_status` on the probe's outcome. */
  function CheckLiveStatus(probe: LiveProbe): (r: LiveStatus)
    ensures probe.LiveProbeFailed? ==> r == LiveError(probe.message)
    ensures probe.LiveProbed? ==>
              r.LiveInfo?
              && (IsLiveNow(r) <==> probe.isLive == Some(true))
              && r.wasLive == (probe.wasLive == Some(true))
              && r.liveStatus == probe.liveStatus && r.duration == probe.duration
              && r.startTime == probe.releaseTimestamp
              && r.title == probe.title.GetOr("") && r.uploader == probe.uploader.GetOr("")
              && |r.description| <= 203
              && (r.description == "" <==> probe.description.None? || probe.description.value == "")
  {
    match probe
    case LiveProbeFailed(m) => LiveError(m)
    case LiveProbed(isLive, wasLive, liveStatus, title, duration, start, uploader, description) =>
      LiveInfo(isLive.GetOr(false), wasLive.GetOr(false), liveStatus, title.GetOr(""), duration, start,
               uploader.GetOr(""), ShortDescription(description))
  }

  /** `options.get('liveMode', 'wait')`. */
  function LiveMode(o: Options): string {
    o.liveMode.GetOr("wait")
  }

  /** The arguments each recognised live mode adds. */
  function ModeArgs(mode: string): seq<Arg> {
    if mode == "wait" then [Str("--live-from-start"), Str("--wait-for-video"), Str("30")]
    else if mode == "now" then [Str("--no-wait-for-video")]
    else if mode == "safe" then [Str("-f"), Str("best[height<=720]"), Str("--live-from-start")]
    else []
  }

  /** A truthy selected format is used in every mode but `safe`. */
  function LiveFormatArgs(o: Options): seq<Arg> {
    if Truthy(o.selectedFormat) && LiveMode(o) != "safe" then [Str("-f"), Str(o.selectedFormat.value)] else []
  }

  /** `build_live_download_command` for an item with this url and these
      options. */
  function LiveCommand(url: string, o: Options): seq<Arg> {
    CommandHead(url, o, LiveTemplate) + ModeArgs(LiveMode(o)) + LiveFormatArgs(o)
  }

  /** Builds the list through the source's if/elif chain. */
  method BuildLiveCommand(url: string, options: Options) returns (command: seq<Arg>)
    ensures command == LiveCommand(url, options)
  {
    command := CommandHead(url, options, LiveTemplate);
    var mode := options.liveMode.GetOr("wait");
    if mode == "wait" {
      command := command + [Str("--live-from-start"), Str("--wait-for-video"), Str("30")];
    } else if mode == "now" {
      command := command + [Str("--no-wait-for-video")];
    } else if mode == "safe" {
      command := command + [Str("-f"), Str("best[height<=720]"), Str("--live-from-start")];
    }
    if Truthy(options.selectedFormat) && mode != "safe" {
      command := command + [Str("-f"), Str(options.selectedFormat.value)];
    }
  }

  /** The live command starts like every download command, with the live
      template inside the save directory. */
  lemma LiveCommandHead(url: string, o: Options)
    ensures var c := LiveCommand(url, o);
            |c| >= 6 && c[..6] == CommandHead(url, o, LiveTemplate)
            && c[4] == Str(PathJoin(SaveDir(o), LiveTemplate))
            && StartsWith(c[4].text, SaveDir(o))
            && c[4].text[|c[4].text| - |LiveTemplate|..] == LiveTemplate
  {
    var head := CommandHead(url, o, LiveTemplate);
    var rest := ModeArgs(LiveMode(o)) + LiveFormatArgs(o);
    assert LiveCommand(url, o) == head + rest;
    FrontKept(head, rest);
  }

  /** Without a `liveMode` the stream is recorded from its start once it
      begins, checking every 30 seconds. */
  lemma WaitIsDefault(url: string, o: Options)
    requires o.liveMode.None? || o.liveMode == Some("wait")
    ensures var c := LiveCommand(url, o);
            |c| >= 9 && c[6..9] == [Str("--live-from-start"), Str("--wait-for-video"), Str("30")]
  {
    var c := LiveCommand(url, o);
    assert c[6..9] == ModeArgs("wait");
  }

  /** Mode `now` only disables waiting. */
  lemma NowMode(url: string, o: Options)
    requires o.liveMode == Some("now")
    ensures var c := LiveCommand(url, o);
            |c| >= 7 && c[6] == Str("--no-wait-for-video")
            && |c| == 7 + (if Truthy(o.selectedFormat) then 2 else 0)
  {
  }

  /** Mode `safe` caps the height at 720 and never uses the selected format. */
  lemma SafeMode(url: string, o: Options)
    requires o.liveMode == Some("safe")
    ensures var c := LiveCommand(url, o);
            |c| == 9 && c[6..9] == [Str("-f"), Str("best[height<=720]"), Str("--live-from-start")]
  {
    var c := LiveCommand(url, o);
    assert c[6..9] == ModeArgs("safe");
  }

  /** Outside mode `safe` a truthy selected format closes the command. */
  lemma SelectedFormatLast(url: string, o: Options)
    requires Truthy(o.selectedFormat) && LiveMode(o) != "safe"
    ensures var c := LiveCommand(url, o);
            |c| >= 8 && c[|c| - 2] == Str("-f") && c[|c| - 1] == Str(o.selectedFormat.value)
  {
  }

  /** An unrecognised mode adds no mode arguments. */
  lemma UnknownMode(url: string, o: Options)
    requires LiveMode(o) !in {"wait", "now", "safe"}
    ensures |LiveCommand(url, o)| == 6 + (if Truthy(o.selectedFormat) then 2 else 0)
  {
  }

  /** Cookie settings and custom arguments never reach the live command. */
  lemma LiveCommandIgnoresCookiesAndCustomArgs(url: string, o: Options, browser: Option<string>, custom: seq<string>)
    ensures LiveCommand(url, o) == LiveCommand(url, o.(cookieBrowser := browser, customArgs := custom))
  {
  }

  // ---------------------------------------------------------------------
  // Live formats

  /** The resolution starts with 1080, 1440 or 2160. */
  predicate Unstable(resolution: string) {
    StartsWith(resolution, "1080") || StartsWith(resolution, "1440") || StartsWith(resolution, "2160")
  }

  /** The formats of `get_live_formats`: each format is kept, in order, and
      the warning is appended to the note of exactly the high-resolution
      ones; nothing else changes. */
  function Annotated(formats: seq<DisplayFormat>): (r: seq<DisplayFormat>)
    ensures |r| == |formats|
    ensures forall i | 0 <= i < |formats| ::
              r[i] == formats[i].(note := r[i].note)
              && (Unstable(formats[i].resolution) <==> r[i].note != formats[i].note)
              && (Unstable(formats[i].resolution) ==> r[i].note == formats[i].note + LiveWarning)
    decreases |formats|
  {
    if formats == [] then []
    else
      var f := formats[|formats| - 1];
      var g := if Unstable(f.resolution) then f.(note := f.note + LiveWarning) else f;
      assert Unstable(f.resolution) ==> |g.note| > |f.note|;
      Annotated(formats[..|formats| - 1]) + [g]
  }

  /** The loop of `get_live_formats`, which updates each note in place and
      collects the formats in a new list. */
  method AnnotateForLive(formats: seq<DisplayFormat>) returns (out: seq<DisplayFormat>)
    ensures out == Annotated(formats)
  {
    out := [];
    var i := 0;
    while i < |formats|
      invariant 0 <= i <= |formats|
      invariant out == Annotated(formats[..i])
    {
      assert formats[..i + 1][..i] == formats[..i];
      var fmt := formats[i];
      if Unstable(fmt.resolution) {
        fmt := fmt.(note := fmt.note + LiveWarning);
      }
      out := out + [fmt];
      i := i + 1;
    }
    assert formats[..i] == formats;
  }

  /** What a call of `get_live_formats` comes to: a result, or an exception
      that leaves the call. */
  datatype LiveFormatsOutcome = Returned(result: FormatsResult) | Raised(message: string)

  /** The TypeError Python raises for a call with one argument too many. */
  const ArityError: string := "get_available_formats() takes 1 positional argument but 2 were given"

  /** `get_live_formats` as written: it passes the cookie browser as a second
      argument to `get_available_formats`, which takes only the url, so the
      call raises before any probe is made. The model does not derive the
      TypeError from a model of Python's argument binding: it states the
      outcome directly, and the lemma below only records that no argument
      changes it. */
  function LiveFormatsAsWritten(url: string, cookieBrowser: string, probe: Probe): LiveFormatsOutcome {
    Raised(ArityError)
  }

  /** Whatever the url and whatever the probe would report, the as-written
      helper never returns a format list. */
  lemma LiveFormatsAsWrittenAlwaysRaises(url: string, cookieBrowser: string, probe: Probe)
    ensures !LiveFormatsAsWritten(url, cookieBrowser, probe).Returned?
  {
  }

  /** `get_live_formats` with the formats probed for the url alone. */
  function LiveFormats(probe: Probe): LiveFormatsOutcome {
    match AvailableFormats(probe)
    case FormatsOk(fs) => Returned(FormatsOk(Annotated(fs)))
    case FormatsFailed(e) => Returned(FormatsFailed(e))
  }

  /** The corrected helper always returns; a failure passes through unchanged
      and a success keeps every format, in order, warning about exactly the
      high-resolution ones. */
  lemma LiveFormatsAnnotates(probe: Probe)
    ensures var r := LiveFormats(probe);
            r.Returned?
            && (AvailableFormats(probe).FormatsFailed? ==> r.result == AvailableFormats(probe))
            && (AvailableFormats(probe).FormatsOk? ==>
                  r.result.FormatsOk?
                  && |r.result.formats| == |AvailableFormats(probe).formats|
                  && forall i | 0 <= i < |r.result.formats| ::
                       var before := AvailableFormats(probe).formats[i];
                       var after := r.result.formats[i];
                       after.id == before.id
                       && (Unstable(before.resolution) <==> after.note == before.note + LiveWarning))
  {
    match AvailableFormats(probe)
    case FormatsOk(fs) =>
      forall i | 0 <= i < |fs| ensures !Unstable(fs[i].resolution) ==> Annotated(fs)[i].note != fs[i].note + LiveWarning {
        if !Unstable(fs[i].resolution) {
          assert |fs[i].note + LiveWarning| > |fs[i].note|;
        }
      }
    case FormatsFailed(_) =>
  }
}
