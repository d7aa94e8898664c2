/** The older, single-file back end of `main.py`: the same download queue
    kept in module globals (`download_queue`, `active_processes`,
    `max_concurrent_downloads`), with its own argument vector, its own
    dispatcher ceiling and a `clear_queue` that keeps only running items.
    Items carry no content type and are never live streams.

    As in the package version, each block run under `queue_lock` is one
    method, the downloader process is not run (its launch and termination
    are recorded, its output and exit are inputs) and fresh ids are inputs. */
module LegacyMain {
  import opened Text
  import opened Wrappers
  import opened Entities
  import opened Lists
  import opened Progress
  import opened YtDlpHandler
  import opened DownloadManager

  /** One entry of the global `download_queue`. */
  datatype LegacyItem = LegacyItem(
    id: Id,
    url: string,
    status: Status,
    progress: real,
    details: string,
    detailsKey: Option<string>,
    options: Options)

  function LegacyStatus(item: LegacyItem): Status { item.status }

  // ---------------------------------------------------------------------
  // The argument vector

  /** Audio-only mode first; otherwise a truthy `videoFormat`. */
  function LegacyFormatArgs(o: Options): seq<Arg> {
    if o.audioOnly then AudioArgs(o)
    else if Truthy(o.videoFormat) then [Str("-f"), Str(o.videoFormat.value)]
    else []
  }

  /** The command `run_download_process` builds for an item with this url
      and these options. */
  function LegacyCommand(url: string, o: Options): seq<Arg> {
    CommandHead(url, o, OutputTemplate) + LegacyFormatArgs(o) + CookieArgs(o) + Strs(o.customArgs)
  }

  /** Grows the command list with `extend`, as the source does. */
  method BuildLegacyCommand(url: string, options: Options) returns (command: seq<Arg>)
    ensures command == LegacyCommand(url, options)
  {
    command := CommandHead(url, options, OutputTemplate);
    if options.audioOnly {
      command := command + [Str("-x"), Str("--audio-format"), Str(options.audioFormat.GetOr("best")),
                            Str("-f"), Str("bestaudio/best")];
    } else if Truthy(options.videoFormat) {
      command := command + [Str("-f"), Str(options.videoFormat.value)];
    }
    assert command == CommandHead(url, options, OutputTemplate) + LegacyFormatArgs(options);
    var hasCookieArg := FindCookieArg(options.customArgs);
    if !hasCookieArg && options.cookieBrowser != Some("none") {
      command := command + [Str("--cookies-from-browser"), BrowserArg(options.cookieBrowser)];
    }
    assert command == CommandHead(url, options, OutputTemplate) + LegacyFormatArgs(options) + CookieArgs(options);
    command := command + Strs(options.customArgs);
  }

  /** Audio-only mode wins over a video format: the extraction arguments
      are the only format arguments. */
  lemma LegacyAudioOnlyWins(url: string, o: Options)
    requires o.audioOnly
    ensures var c := LegacyCommand(url, o);
            |c| == 11 + CookieCount(o) + |o.customArgs|
            && c[6..11] == [Str("-x"), Str("--audio-format"), Str(o.audioFormat.GetOr("best")), Str("-f"), Str("bestaudio/best")]
  {
    var c := LegacyCommand(url, o);
    assert c[6..11] == AudioArgs(o);
  }

  /** Otherwise a truthy video format is passed with `-f`, and with neither
      no format argument is added. */
  lemma LegacyVideoFormat(url: string, o: Options)
    requires !o.audioOnly
    ensures var c := LegacyCommand(url, o);
            (Truthy(o.videoFormat) ==>
               |c| == 8 + CookieCount(o) + |o.customArgs| && c[6] == Str("-f") && c[7] == Str(o.videoFormat.value))
            && (!Truthy(o.videoFormat) ==> |c| == 6 + CookieCount(o) + |o.customArgs|)
  {
  }

  /** The legacy command starts with the same six arguments as the
      package's. */
  lemma LegacyCommandHead(url: string, o: Options)
    ensures var c := LegacyCommand(url, o);
            |c| >= 6 && c[..6] == DownloadCommand(url, o)[..6]
  {
    var head := CommandHead(url, o, OutputTemplate);
    var rest := LegacyFormatArgs(o) + CookieArgs(o) + Strs(o.customArgs);
    assert LegacyCommand(url, o) == head + rest;
    FrontKept(head, rest);
    DownloadCommandHead(url, o);
  }

  /** The custom arguments close the legacy command, in their original
      order. */
  lemma LegacyCommandTail(url: string, o: Options)
    ensures var c := LegacyCommand(url, o);
            |c| >= 6 + |o.customArgs|
            && forall i | 0 <= i < |o.customArgs| :: c[|c| - |o.customArgs| + i] == Str(o.customArgs[i])
  {
    var c := LegacyCommand(url, o);
    var front := CommandHead(url, o, OutputTemplate) + LegacyFormatArgs(o) + CookieArgs(o);
    var tail := Strs(o.customArgs);
    assert |front| >= 6;
    forall i | 0 <= i < |o.customArgs| ensures c[|c| - |o.customArgs| + i] == Str(o.customArgs[i]) {
      assert c[|front| + i] == tail[i];
    }
  }

  /** The cookie pair sits right before the custom arguments, under the same
      rule as in the package. */
  lemma LegacyCookieRule(url: string, o: Options)
    ensures var c := LegacyCommand(url, o);
            var k := |c| - |o.customArgs| - 2;
            WantsCookies(o) ==> k >= 6 && c[k] == Str("--cookies-from-browser") && c[k + 1] == BrowserArg(o.cookieBrowser)
  {
  }

  /** Where neither version has a format argument of its own, the two
      builders produce the same command. */
  lemma LegacyAgreesWithPackage(url: string, o: Options)
    requires !UsesSelectedFormat(o) && (o.audioOnly || !Truthy(o.videoFormat))
    ensures LegacyCommand(url, o) == DownloadCommand(url, o)
  {
  }

  // ---------------------------------------------------------------------
  // One run of the downloader

  /** The item `handle_add_to_queue` creates for one url. */
  function NewLegacyEntry(id: Id, url: string, options: Options): LegacyItem {
    LegacyItem(id, url, Waiting, 0.0, "", None, options)
  }

  /** `process.stderr.read().strip().split('\n')[-1]`, with no fallback. */
  function LegacyErrorDetail(stderr: string): string {
    LastLine(Strip(stderr))
  }

  /** The legacy detail is empty for an empty trimmed error output, where
      the package writes `Unknown error`, and the same as the package's
      otherwise. */
  lemma LegacyErrorDetailDiffers(stderr: string)
    ensures Strip(stderr) == "" ==> LegacyErrorDetail(stderr) == "" && ErrorDetail(stderr) == "Unknown error"
    ensures Strip(stderr) != "" ==> LegacyErrorDetail(stderr) == ErrorDetail(stderr)
  {
  }

  /** The classification after the process exits, for an item still in the
      queue. */
  function LegacyFinished(item: LegacyItem, returnCode: int, stderr: string): LegacyItem {
    if returnCode == 0 then item.(status := Completed, progress := 100.0, detailsKey := Some("details_completed"))
    else if item.status == Cancelled then item.(detailsKey := Some("details_cancelled"))
    else item.(status := Error, details := LegacyErrorDetail(stderr))
  }

  /** The `except` branch for an item still in the queue. */
  function LegacyFailed(item: LegacyItem, message: string): LegacyItem {
    item.(status := Error, details := message)
  }

  /** Exit code 0 completes the item; otherwise a cancelled item stays
      cancelled and any other becomes an error whose detail is the last
      line of the trimmed error output, empty when there is none. */
  lemma LegacyFinishedClassifies(item: LegacyItem, returnCode: int, stderr: string)
    ensures var r := LegacyFinished(item, returnCode, stderr);
            r.id == item.id && r.url == item.url && r.options == item.options
            && (returnCode == 0 ==> r.status == Completed && r.progress == 100.0 && r.detailsKey == Some("details_completed"))
            && (returnCode != 0 && item.status == Cancelled ==>
                  r.status == Cancelled && r.details == item.details && r.detailsKey == Some("details_cancelled"))
            && (returnCode != 0 && item.status != Cancelled ==>
                  r.status == Error && r.details == LegacyErrorDetail(stderr)
                  && '\n' !in r.details && (Strip(stderr) == "" ==> r.details == ""))
  {
  }

  /** The item after one parsed output line. */
  function LegacyProgressed(item: LegacyItem, update: ProgressUpdate): LegacyItem {
    match update
    case Update(p, d) => item.(progress := p, details := d)
    case NoProgress => item
    case Raises(_) => item
  }

  /** The item showing what the output loop has read. */
  function LegacyShown(item: LegacyItem, r: Reading): LegacyItem {
    item.(progress := r.progress, details := r.details)
  }

  /** The item after its output was read. */
  function LegacyConcluded(item: LegacyItem, raised: Option<string>, code: int, stderr: string): LegacyItem {
    if raised.Some? then LegacyFailed(item, raised.value) else LegacyFinished(item, code, stderr)
  }

  /** The item once marked downloading, after an uninterrupted run. */
  function LegacyRan(parse: string -> ProgressUpdate, started: LegacyItem, run: RunOutcome): LegacyItem {
    match run
    case SpawnFailed(m) => LegacyFailed(started, m)
    case Spawned(_, lines, code, stderr) =>
      var r := ReadLines(parse, started.progress, started.details, lines);
      LegacyConcluded(LegacyShown(started, r), r.raised, code, stderr)
  }

  function LegacyRunResult(parse: string -> ProgressUpdate, item: LegacyItem, run: RunOutcome): LegacyItem {
    LegacyRan(parse, item.(status := Downloading), run)
  }

  /** A run ends completed exactly when the process was launched, no output
      line raised and the exit code is 0, and in error otherwise. */
  lemma LegacyRunEnds(parse: string -> ProgressUpdate, item: LegacyItem, run: RunOutcome)
    ensures var r := LegacyRunResult(parse, item, run);
            var read := ReadLines(parse, item.progress, item.details, if run.Spawned? then run.lines else []);
            r.id == item.id && r.url == item.url && r.options == item.options
            && (r.status == Completed || r.status == Error)
            && (r.status == Completed <==> run.Spawned? && read.raised.None? && run.exitCode == 0)
            && (r.status == Completed ==> r.progress == 100.0 && r.detailsKey == Some("details_completed"))
            && (run.SpawnFailed? ==> r.details == run.message)
            && (run.Spawned? && read.raised.Some? ==> r.details == read.raised.value)
            && (run.Spawned? && read.raised.None? && run.exitCode != 0 ==> r.details == LegacyErrorDetail(run.stderr))
  {
  }

  /** No item in the queue is cancelled. */
  predicate NoneCancelledLegacy(q: map<Id, LegacyItem>) {
    forall x | x in q :: q[x].status != Cancelled
  }

  /** The items `handle_clear_queue` lists: all but the downloading ones. */
  function Clearable(q: map<Id, LegacyItem>): Id -> bool {
    x => x in q && q[x].status != Downloading
  }

  /** The keys left once the listed items are popped are those of the
      downloading items. */
  lemma ClearedToDownloading(q: map<Id, LegacyItem>, order: seq<Id>, q': map<Id, LegacyItem>)
    requires Consistent(q, order)
    requires forall x :: x in q' <==> x in q && x !in Keep(order, Clearable(q))
    ensures forall x :: x in q' <==> x in q && q[x].status == Downloading
  {
    forall x
      ensures x in q' <==> x in q && q[x].status == Downloading
    {
      KeepCounts(order, Clearable(q), x);
    }
  }

  // ---------------------------------------------------------------------
  // The application state

  class LegacyApp {
    /** `download_queue`, with its insertion order. */
    var queue: map<Id, LegacyItem>
    var order: seq<Id>
    /** `active_processes`. */
    var active: map<Id, nat>
    /** Every `Popen` call, in order. */
    var launched: seq<Launch>
    /** Every `terminate` call, in order. */
    var terminated: seq<nat>
    /** `max_concurrent_downloads`. */
    var maxConcurrent: int
    /** The line parser, `parse_progress` of this file. */
    const parse: string -> ProgressUpdate

    ghost predicate Valid()
      reads this
    {
      Consistent(queue, order) && forall x | x in queue :: queue[x].id == x
    }

    /** The globals as the module defines them, with the file's own
        `parse_progress`, which has the grammar of the package's. */
    constructor()
      ensures Valid()
      ensures queue == map[] && order == [] && active == map[] && launched == [] && terminated == []
      ensures maxConcurrent == 1
      ensures parse == ParseProgress
    {
      parse := ParseProgress;
      queue := map[];
      order := [];
      active := map[];
      launched := [];
      terminated := [];
      maxConcurrent := 1;
    }

    /** `start_next_download` against `max_concurrent_downloads`. */
    method StartNext() returns (next: Option<Id>)
      ensures Dispatches(queue, order, LegacyStatus, maxConcurrent, next)
    {
      next := FirstToStart(queue, order, LegacyStatus, maxConcurrent);
    }

    /** `handle_save_settings`: the ceiling becomes
        `general.concurrentDownloads` of the new settings, 1 when absent,
        and the dispatcher runs. */
    method SaveSettings(concurrentDownloads: Option<int>) returns (next: Option<Id>)
      modifies this
      ensures maxConcurrent == concurrentDownloads.GetOr(1)
      ensures queue == old(queue) && order == old(order) && active == old(active)
      ensures launched == old(launched) && terminated == old(terminated)
      ensures Dispatches(queue, order, LegacyStatus, maxConcurrent, next)
    {
      maxConcurrent := concurrentDownloads.GetOr(1);
      next := StartNext();
    }

    /** One iteration of the `for url in urls` loop. */
    method Enqueue(id: Id, url: string, options: Options)
      requires Valid() && id !in queue
      modifies this
      ensures Valid()
      ensures queue == old(queue)[id := NewLegacyEntry(id, url, options)]
      ensures id in queue && queue[id] == NewLegacyEntry(id, url, options)
      ensures forall x | x in old(queue) :: x in queue && queue[x] == old(queue)[x]
      ensures forall x | x != id && x !in old(queue) :: x !in queue
      ensures order == old(order) + [id]
      ensures active == old(active) && launched == old(launched) && terminated == old(terminated)
      ensures maxConcurrent == old(maxConcurrent)
    {
      assert multiset(order)[id] == 0;
      queue := queue[id := LegacyItem(id, url, Waiting, 0.0, "", None, options)];
      order := order + [id];
      FreshUpdate(old(queue), id, NewLegacyEntry(id, url, options));
    }

    /** `handle_add_to_queue`: one waiting item per url under the fresh id
        `ids[k]`, then the dispatcher. */
    method AddToQueue(urls: seq<string>, options: Options, ids: seq<Id>) returns (next: Option<Id>)
      requires Valid()
      requires |ids| == |urls| && Distinct(ids) && forall k | 0 <= k < |ids| :: ids[k] !in queue
      modifies this
      ensures Valid()
      ensures order == old(order) + ids
      ensures forall k | 0 <= k < |ids| :: queue[ids[k]] == NewLegacyEntry(ids[k], urls[k], options)
      ensures forall x | x in old(queue) :: queue[x] == old(queue)[x]
      ensures active == old(active) && launched == old(launched) && terminated == old(terminated)
      ensures maxConcurrent == old(maxConcurrent)
      ensures Dispatches(queue, order, LegacyStatus, maxConcurrent, next)
    {
      EnqueueAll(urls, options, ids);
      next := StartNext();
    }

    /** The `for url in urls` loop of `handle_add_to_queue`. */
    method EnqueueAll(urls: seq<string>, options: Options, ids: seq<Id>)
      requires Valid()
      requires |ids| == |urls| && Distinct(ids) && forall k | 0 <= k < |ids| :: ids[k] !in queue
      modifies this
      ensures Valid()
      ensures order == old(order) + ids
      ensures forall k | 0 <= k < |ids| :: ids[k] in queue && queue[ids[k]] == NewLegacyEntry(ids[k], urls[k], options)
      ensures forall x | x in old(queue) :: x in queue && queue[x] == old(queue)[x]
      ensures active == old(active) && launched == old(launched) && terminated == old(terminated)
      ensures maxConcurrent == old(maxConcurrent)
    {
      var k := 0;
      while k < |urls|
        invariant 0 <= k <= |urls|
        invariant Valid()
        invariant order == old(order) + ids[..k]
        invariant forall j | k <= j < |ids| :: ids[j] !in queue
        invariant forall j | 0 <= j < k :: ids[j] in queue && queue[ids[j]] == NewLegacyEntry(ids[j], urls[j], options)
        invariant forall x | x in old(queue) :: x in queue && queue[x] == old(queue)[x]
        invariant active == old(active) && launched == old(launched) && terminated == old(terminated)
        invariant maxConcurrent == old(maxConcurrent)
      {
        var id := ids[k];
        Enqueue(id, urls[k], options);
        assert ids[..k + 1] == ids[..k] + [id];
        k := k + 1;
      }
      assert ids[..k] == ids;
    }

    /** The first locked block of `run_download_process` and the command it
        builds: a missing item is left alone (the early return, which skips
        the `finally` block); any other is marked downloading. */
    method BeginRun(id: Id) returns (command: Option<seq<Arg>>)
      requires Valid()
      modifies this
      ensures Valid()
      ensures id !in old(queue) ==> queue == old(queue) && command.None?
      ensures id in old(queue) ==>
                queue == old(queue)[id := old(queue)[id].(status := Downloading)]
                && command == Some(LegacyCommand(old(queue)[id].url, old(queue)[id].options))
      ensures order == old(order) && active == old(active) && launched == old(launched) && terminated == old(terminated)
      ensures maxConcurrent == old(maxConcurrent)
    {
      if id !in queue {
        return None;
      }
      var item := queue[id];
      queue := queue[id := item.(status := Downloading)];
      var argv := BuildLegacyCommand(item.url, item.options);
      command := Some(argv);
    }

    /** `Popen` succeeded: the process is registered under the item's id. */
    method Launched(id: Id, command: seq<Arg>, handle: nat)
      modifies this
      ensures active == old(active)[id := handle]
      ensures launched == old(launched) + [Launch(id, command, handle)]
      ensures queue == old(queue) && order == old(order) && terminated == old(terminated)
      ensures maxConcurrent == old(maxConcurrent)
    {
      active := active[id := handle];
      launched := launched + [Launch(id, command, handle)];
    }

    /** One output line: a progress line updates the item; a line whose
        percentage `float` rejects raises, which is returned. */
    method ApplyLine(id: Id, line: string) returns (raised: Option<string>)
      requires Valid()
      modifies this
      ensures Valid()
      ensures raised == if parse(line).Raises? then Some(parse(line).message) else None
      ensures queue == if id in old(queue) then old(queue)[id := LegacyProgressed(old(queue)[id], parse(line))] else old(queue)
      ensures order == old(order) && active == old(active) && launched == old(launched) && terminated == old(terminated)
      ensures maxConcurrent == old(maxConcurrent)
    {
      var update := parse(line);
      raised := None;
      match update
      case Raises(m) =>
        raised := Some(m);
      case NoProgress =>
      case Update(p, d) =>
        if id in queue {
          queue := queue[id := queue[id].(progress := p, details := d)];
        }
    }

    /** The output loop, up to the first line that raises. */
    method ReadOutput(id: Id, lines: seq<string>) returns (raised: Option<string>)
      requires Valid() && id in queue
      modifies this
      ensures Valid()
      ensures var r := ReadLines(parse, old(queue)[id].progress, old(queue)[id].details, lines);
              queue == old(queue)[id := LegacyShown(old(queue)[id], r)] && raised == r.raised
      ensures order == old(order) && active == old(active) && launched == old(launched) && terminated == old(terminated)
      ensures maxConcurrent == old(maxConcurrent)
    {
      var start := queue[id];
      var i := 0;
      raised := None;
      assert queue == old(queue)[id := LegacyShown(start, Reading(start.progress, start.details, None))];
      while i < |lines| && raised.None?
        invariant 0 <= i <= |lines|
        invariant Valid()
        invariant var r := ReadLines(parse, start.progress, start.details, lines[..i]);
                  queue == old(queue)[id := LegacyShown(start, r)] && raised == r.raised
        invariant order == old(order) && active == old(active) && launched == old(launched) && terminated == old(terminated)
        invariant maxConcurrent == old(maxConcurrent)
      {
        assert lines[..i + 1][..i] == lines[..i];
        ghost var before := queue[id];
        raised := ApplyLine(id, lines[i]);
        UpdateTwice(old(queue), id, before, queue[id]);
        i := i + 1;
      }
      if raised.Some? {
        ReadLinesStops(parse, start.progress, start.details, lines, i);
      } else {
        assert lines[..i] == lines;
      }
    }

    /** The `finally` block: the process leaves the registry and the
        dispatcher runs. */
    method Release(id: Id) returns (next: Option<Id>)
      modifies this
      ensures active == old(active) - {id}
      ensures queue == old(queue) && order == old(order) && launched == old(launched) && terminated == old(terminated)
      ensures maxConcurrent == old(maxConcurrent)
      ensures Dispatches(queue, order, LegacyStatus, maxConcurrent, next)
    {
      active := active - {id};
      next := StartNext();
    }

    /** The process exited: an item removed meanwhile is left alone, any
        other is classified by LegacyFinished; then the `finally` block. */
    method Finish(id: Id, returnCode: int, stderr: string) returns (next: Option<Id>)
      requires Valid()
      modifies this
      ensures Valid()
      ensures queue == if id in old(queue) then old(queue)[id := LegacyFinished(old(queue)[id], returnCode, stderr)] else old(queue)
      ensures NoneCancelledLegacy(old(queue)) ==> NoneCancelledLegacy(queue)
      ensures active == old(active) - {id}
      ensures order == old(order) && launched == old(launched) && terminated == old(terminated)
      ensures maxConcurrent == old(maxConcurrent)
      ensures Dispatches(queue, order, LegacyStatus, maxConcurrent, next)
    {
      if id in queue {
        var item := queue[id];
        if returnCode == 0 {
          item := item.(status := Completed, progress := 100.0, detailsKey := Some("details_completed"));
        } else if item.status == Cancelled {
          item := item.(detailsKey := Some("details_cancelled"));
        } else {
          item := item.(status := Error, details := LastLine(Strip(stderr)));
        }
        queue := queue[id := item];
      }
      next := Release(id);
    }

    /** The `except` block: an item still in the queue becomes an error with
        the exception's text; then the `finally` block. */
    method Fail(id: Id, message: string) returns (next: Option<Id>)
      requires Valid()
      modifies this
      ensures Valid()
      ensures queue == if id in old(queue) then old(queue)[id := LegacyFailed(old(queue)[id], message)] else old(queue)
      ensures NoneCancelledLegacy(old(queue)) ==> NoneCancelledLegacy(queue)
      ensures active == old(active) - {id}
      ensures order == old(order) && launched == old(launched) && terminated == old(terminated)
      ensures maxConcurrent == old(maxConcurrent)
      ensures Dispatches(queue, order, LegacyStatus, maxConcurrent, next)
    {
      if id in queue {
        queue := queue[id := LegacyFailed(queue[id], message)];
      }
      next := Release(id);
    }

    /** After the output loop: the `except` block when a line raised, the
        exit classification otherwise. */
    method Conclude(id: Id, raised: Option<string>, exitCode: int, stderr: string) returns (next: Option<Id>)
      requires Valid() && id in queue
      modifies this
      ensures Valid()
      ensures queue == old(queue)[id := LegacyConcluded(old(queue)[id], raised, exitCode, stderr)]
      ensures active == old(active) - {id}
      ensures order == old(order) && launched == old(launched) && terminated == old(terminated)
      ensures maxConcurrent == old(maxConcurrent)
      ensures Dispatches(queue, order, LegacyStatus, maxConcurrent, next)
    {
      if raised.Some? {
        next := Fail(id, raised.value);
      } else {
        next := Finish(id, exitCode, stderr);
      }
    }

    /** The rest of `run_download_process` once the item is downloading. */
    method RunStarted(id: Id, command: seq<Arg>, run: RunOutcome) returns (next: Option<Id>)
      requires Valid() && id in queue
      modifies this
      ensures Valid()
      ensures queue == old(queue)[id := LegacyRan(parse, old(queue)[id], run)]
      ensures active == old(active) - {id}
      ensures launched == old(launched) + (if run.Spawned? then [Launch(id, command, run.handle)] else [])
      ensures order == old(order) && terminated == old(terminated)
      ensures maxConcurrent == old(maxConcurrent)
      ensures Dispatches(queue, order, LegacyStatus, maxConcurrent, next)
    {
      match run
      case SpawnFailed(message) =>
        next := Fail(id, message);
      case Spawned(handle, lines, exitCode, stderr) =>
        Launched(id, command, handle);
        next := Consume(id, lines, exitCode, stderr);
        UpdateThenRemove(old(active), id, handle);
    }

    /** The output loop and what follows it, for a launched process. */
    method Consume(id: Id, lines: seq<string>, exitCode: int, stderr: string) returns (next: Option<Id>)
      requires Valid() && id in queue
      modifies this
      ensures Valid()
      ensures var r := ReadLines(parse, old(queue)[id].progress, old(queue)[id].details, lines);
              queue == old(queue)[id := LegacyConcluded(LegacyShown(old(queue)[id], r), r.raised, exitCode, stderr)]
      ensures active == old(active) - {id}
      ensures order == old(order) && launched == old(launched) && terminated == old(terminated)
      ensures maxConcurrent == old(maxConcurrent)
      ensures Dispatches(queue, order, LegacyStatus, maxConcurrent, next)
    {
      var raised := ReadOutput(id, lines);
      ghost var read := queue;
      next := Conclude(id, raised, exitCode, stderr);
      UpdateTwice(old(queue), id, read[id], queue[id]);
    }

    /** `run_download_process` when nothing else happens to the queue while
        the process runs. */
    method RunDownload(id: Id, run: RunOutcome) returns (next: Option<Id>)
      requires Valid()
      modifies this
      ensures Valid()
      ensures id !in old(queue) ==>
                queue == old(queue) && active == old(active) && launched == old(launched) && next.None?
      ensures id in old(queue) ==>
                queue == old(queue)[id := LegacyRunResult(parse, old(queue)[id], run)]
                && active == old(active) - {id}
                && launched == old(launched)
                               + (if run.Spawned? then [Launch(id, LegacyCommand(old(queue)[id].url, old(queue)[id].options), run.handle)] else [])
                && Dispatches(queue, order, LegacyStatus, maxConcurrent, next)
      ensures order == old(order) && terminated == old(terminated) && maxConcurrent == old(maxConcurrent)
    {
      var command := BeginRun(id);
      if command.None? {
        return None;
      }
      ghost var started := queue[id];
      next := RunStarted(id, command.value, run);
      UpdateTwice(old(queue), id, started, LegacyRan(parse, started, run));
    }

    /** `download_queue.pop(id, None)`. */
    method Pop(id: Id)
      requires Valid()
      modifies this
      ensures Valid()
      ensures queue == old(queue) - {id}
      ensures order == Without(old(order), id)
      ensures active == old(active) && launched == old(launched) && terminated == old(terminated)
      ensures maxConcurrent == old(maxConcurrent)
    {
      if id in queue {
        PopConsistent(queue, order, id);
        queue := queue - {id};
        order := Without(order, id);
      } else {
        WithoutMissing(order, id);
      }
    }

    /** `handle_remove_item`: the locked removal, then the dispatcher. */
    method RemoveItem(id: Id) returns (next: Option<Id>)
      requires Valid()
      modifies this
      ensures Valid()
      ensures queue == old(queue) - {id}
      ensures order == Without(old(order), id)
      ensures var cancels := id in old(queue) && old(queue)[id].status == Downloading;
              active == (if cancels then old(active) - {id} else old(active))
              && terminated == old(terminated) + (if cancels && id in old(active) then [old(active)[id]] else [])
      ensures NoneCancelledLegacy(old(queue)) ==> NoneCancelledLegacy(queue)
      ensures launched == old(launched) && maxConcurrent == old(maxConcurrent)
      ensures Dispatches(queue, order, LegacyStatus, maxConcurrent, next)
    {
      Remove(id);
      next := StartNext();
    }

    /** The locked block of `handle_remove_item`: a downloading item whose
        process is registered has its process terminated and taken out of
        the registry; the item is removed whatever its status. */
    method Remove(id: Id)
      requires Valid()
      modifies this
      ensures Valid()
      ensures queue == old(queue) - {id}
      ensures order == Without(old(order), id)
      ensures var cancels := id in old(queue) && old(queue)[id].status == Downloading;
              active == (if cancels then old(active) - {id} else old(active))
              && terminated == old(terminated) + (if cancels && id in old(active) then [old(active)[id]] else [])
      ensures NoneCancelledLegacy(old(queue)) ==> NoneCancelledLegacy(queue)
      ensures launched == old(launched) && maxConcurrent == old(maxConcurrent)
    {
      if id in queue {
        var item := queue[id];
        if item.status == Downloading {
          if id in active {
            var process := active[id];
            active := active - {id};
            terminated := terminated + [process];
            queue := queue[id := item.(status := Cancelled)];
            UpdateThenRemove(old(queue), id, item.(status := Cancelled));
          }
        }
      }
      Pop(id);
    }

    /** The `for` loop of `handle_clear_queue`: each listed id is popped. */
    method PopAll(ids: seq<Id>)
      requires Valid()
      modifies this
      ensures Valid()
      ensures forall x :: x in queue <==> x in old(queue) && x !in ids
      ensures forall x | x in queue :: queue[x] == old(queue)[x]
      ensures order == Keep(old(order), Present(queue))
      ensures active == old(active) && launched == old(launched) && terminated == old(terminated)
      ensures maxConcurrent == old(maxConcurrent)
    {
      KeepAll(order, queue);
      var i := 0;
      ghost var popped: set<Id> := {};
      while i < |ids|
        invariant 0 <= i <= |ids|
        invariant Valid()
        invariant forall x :: x in queue <==> x in old(queue) && x !in popped
        invariant forall j | 0 <= j < i :: ids[j] in popped
        invariant forall x | x in popped :: x in ids
        invariant forall x | x in queue :: queue[x] == old(queue)[x]
        invariant order == Keep(old(order), Present(queue))
        invariant active == old(active) && launched == old(launched) && terminated == old(terminated)
        invariant maxConcurrent == old(maxConcurrent)
      {
        KeepWithout(old(order), queue, ids[i]);
        Pop(ids[i]);
        popped := popped + {ids[i]};
        i := i + 1;
      }
    }

    /** `handle_clear_queue`: removes every item that is not downloading,
        waiting ones included, and keeps the downloading ones unchanged and
        in order. */
    method ClearQueue()
      requires Valid()
      modifies this
      ensures Valid()
      ensures forall x :: x in queue <==> x in old(queue) && old(queue)[x].status == Downloading
      ensures forall x | x in queue :: queue[x] == old(queue)[x]
      ensures order == Keep(old(order), Present(queue))
      ensures active == old(active) && launched == old(launched) && terminated == old(terminated)
      ensures maxConcurrent == old(maxConcurrent)
    {
      var toRemove := Keep(order, Clearable(queue));
      PopAll(toRemove);
      ClearedToDownloading(old(queue), old(order), queue);
    }
  }
}
