/** `DownloadManager` of `app/download_manager.py`: the download queue, the
    dispatcher that starts the next waiting item, the run of one download
    and the removal of items.

    The queue is a dictionary from id to item; Python keeps its insertion
    order, which the dispatcher relies on, so the model keeps the order of
    the ids beside the map. Each block the source runs under its lock is
    one method. The downloader process is not run: its launch and its
    termination are recorded, and what it prints and how it exits are
    inputs. Fresh ids (`uuid4`), time stamps and the live probe are inputs
    as well. */
module DownloadManager {
  import opened Text
  import opened Wrappers
  import opened Entities
  import opened Lists
  import opened Progress
  import opened YtDlpHandler
  import opened LiveHandler
  import opened ContentAnalyzer

  type Id = string

  /** One entry of `download_queue`. */
  datatype Item = Item(
    id: Id,
    url: string,
    status: Status,
    progress: real,
    details: string,
    detailsKey: Option<string>,
    options: Options,
    contentType: ContentType,
    createdAt: string,
    liveInfo: Option<LiveStatus>)

  function StatusOf(item: Item): Status { item.status }

  // ---------------------------------------------------------------------
  // The queue as a dictionary with an insertion order

  /** No id occurs twice. */
  predicate Distinct(ids: seq<Id>) {
    forall i, j | 0 <= i < j < |ids| :: ids[i] != ids[j]
  }

  /** `order` lists the keys of `q`, each once. */
  ghost predicate Consistent<T>(q: map<Id, T>, order: seq<Id>) {
    (forall x :: x in q <==> x in order) && forall x :: multiset(order)[x] <= 1
  }

  /** No id occurs twice. */
  ghost predicate NoRepeats(order: seq<Id>) {
    forall x :: multiset(order)[x] <= 1
  }

  function Present<T>(q: map<Id, T>): Id -> bool {
    x => x in q
  }

  /** The order after `pop(x)`: every other key, in the same order. */
  function Without(order: seq<Id>, x: Id): seq<Id> {
    Keep(order, y => y != x)
  }

  /** Popping a key keeps the order listing the remaining keys, each once. */
  lemma PopConsistent<T>(q: map<Id, T>, order: seq<Id>, x: Id)
    requires Consistent(q, order)
    ensures Consistent(q - {x}, Without(order, x))
  {
    forall y
      ensures y in q - {x} <==> y in Without(order, x)
      ensures multiset(Without(order, x))[y] <= 1
    {
      KeepCounts(order, z => z != x, y);
    }
  }

  /** Popping a key the order does not hold leaves the order as it is. */
  lemma {:induction false} WithoutMissing(order: seq<Id>, x: Id)
    requires x !in order
    ensures Without(order, x) == order
    decreases |order|
  {
    if order != [] {
      WithoutMissing(order[..|order| - 1], x);
    }
  }

  /** Popping a key from a queue whose order was filtered to its keys gives
      the order filtered to the remaining keys. */
  lemma {:induction false} KeepWithout<T>(s: seq<Id>, q: map<Id, T>, x: Id)
    ensures Without(Keep(s, Present(q)), x) == Keep(s, Present(q - {x}))
    decreases |s|
  {
    if s != [] {
      var init, last := s[..|s| - 1], s[|s| - 1];
      KeepWithout(init, q, x);
      var tail := if last in q then [last] else [];
      KeepAppend(Keep(init, Present(q)), tail, y => y != x);
    }
  }

  /** The second update of a key overrides the first. */
  lemma UpdateTwice<T>(m: map<Id, T>, id: Id, a: T, b: T)
    ensures m[id := a][id := b] == m[id := b]
  {
  }

  /** Storing under a fresh key adds that key and keeps the others. */
  lemma FreshUpdate<T>(m: map<Id, T>, id: Id, v: T)
    requires id !in m
    ensures id in m[id := v] && m[id := v][id] == v
    ensures forall x | x in m :: x in m[id := v] && m[id := v][x] == m[x]
    ensures forall x | x != id && x !in m :: x !in m[id := v]
  {
  }

  /** Removing a key undoes an update of it. */
  lemma UpdateThenRemove<T>(m: map<Id, T>, id: Id, a: T)
    ensures m[id := a] - {id} == m - {id}
  {
  }

  lemma DistinctCounts(ids: seq<Id>, x: Id)
    requires Distinct(ids)
    ensures multiset(ids)[x] <= 1
    decreases |ids|
  {
    if ids != [] {
      var init := ids[..|ids| - 1];
      assert ids == init + [ids[|ids| - 1]];
      DistinctCounts(init, x);
      if x == ids[|ids| - 1] {
        assert x !in init;
      }
    }
  }

  /** The number of items with status `st`, as `sum(1 for item in
      queue.values() if item['status'] == st)` counts them. */
  function CountStatus<T>(q: map<Id, T>, order: seq<Id>, statusOf: T -> Status, st: Status): (n: nat)
    ensures n <= |order|
    decreases |order|
  {
    if order == [] then 0
    else
      var x := order[|order| - 1];
      CountStatus(q, order[..|order| - 1], statusOf, st) + (if x in q && statusOf(q[x]) == st then 1 else 0)
  }

  /** On a consistent queue the count is the number of queued items whose
      status is `st`. */
  lemma CountStatusCounts<T>(q: map<Id, T>, order: seq<Id>, statusOf: T -> Status, st: Status)
    requires Consistent(q, order)
    ensures CountStatus(q, order, statusOf, st) == |set x | x in q && statusOf(q[x]) == st|
  {
    CountStatusDistinct(q, order, statusOf, st);
    assert WithStatus(q, order, statusOf, st) == set x | x in q && statusOf(q[x]) == st;
  }

  /** Dropping the last id of a list without repeats leaves a list without
      repeats that does not hold that id. */
  lemma DistinctInit(order: seq<Id>)
    requires order != [] && NoRepeats(order)
    ensures order[|order| - 1] !in order[..|order| - 1]
    ensures NoRepeats(order[..|order| - 1])
  {
    var init, last := order[..|order| - 1], order[|order| - 1];
    assert order == init + [last];
    assert multiset(order) == multiset(init) + multiset{last};
    assert multiset(order)[last] == multiset(init)[last] + 1;
    forall x ensures multiset(init)[x] <= 1 {
      assert multiset(init)[x] <= multiset(order)[x];
    }
  }

  /** The ids of `ids` that are queued with status `st`. */
  function WithStatus<T>(q: map<Id, T>, ids: seq<Id>, statusOf: T -> Status, st: Status): set<Id> {
    set x | x in ids && x in q && statusOf(q[x]) == st
  }

  lemma {:induction false} CountStatusDistinct<T>(q: map<Id, T>, order: seq<Id>, statusOf: T -> Status, st: Status)
    requires NoRepeats(order)
    ensures CountStatus(q, order, statusOf, st) == |WithStatus(q, order, statusOf, st)|
    decreases |order|
  {
    if order != [] {
      var init, last := order[..|order| - 1], order[|order| - 1];
      DistinctInit(order);
      CountStatusDistinct(q, init, statusOf, st);
      WithStatusStep(q, order, statusOf, st);
    }
  }

  lemma WithStatusStep<T>(q: map<Id, T>, order: seq<Id>, statusOf: T -> Status, st: Status)
    requires order != []
    ensures var init, last := order[..|order| - 1], order[|order| - 1];
            WithStatus(q, order, statusOf, st)
              == WithStatus(q, init, statusOf, st) + (if last in q && statusOf(q[last]) == st then {last} else {})
  {
    assert order == order[..|order| - 1] + [order[|order| - 1]];
  }

  /** What `start_next_download` starts: nothing while `max` items or more
      are downloading; otherwise the first `waiting` item in insertion
      order, or nothing when no item waits. */
  predicate Dispatches<T>(q: map<Id, T>, order: seq<Id>, statusOf: T -> Status, max: int, next: Option<Id>) {
    if CountStatus(q, order, statusOf, Downloading) >= max then next.None?
    else match next
      case None => forall k | 0 <= k < |order| && order[k] in q :: statusOf(q[order[k]]) != Waiting
      case Some(x) =>
        exists k | 0 <= k < |order| ::
          order[k] == x && x in q && statusOf(q[x]) == Waiting
          && forall j | 0 <= j < k && order[j] in q :: statusOf(q[order[j]]) != Waiting
  }

  /** The dispatch rule leaves no choice: at most one answer fits it. */
  lemma DispatchesUnique<T>(q: map<Id, T>, order: seq<Id>, statusOf: T -> Status, max: int, a: Option<Id>, b: Option<Id>)
    requires Dispatches(q, order, statusOf, max, a) && Dispatches(q, order, statusOf, max, b)
    ensures a == b
  {
    if CountStatus(q, order, statusOf, Downloading) < max {
      if a.Some? && b.Some? {
        var k :| 0 <= k < |order| && order[k] == a.value && a.value in q && statusOf(q[a.value]) == Waiting
                 && forall j | 0 <= j < k && order[j] in q :: statusOf(q[order[j]]) != Waiting;
        var l :| 0 <= l < |order| && order[l] == b.value && b.value in q && statusOf(q[b.value]) == Waiting
                 && forall j | 0 <= j < l && order[j] in q :: statusOf(q[order[j]]) != Waiting;
        assert !(k < l) && !(l < k);
      }
    }
  }

  /** The two generator expressions of `start_next_download`: count the
      downloading items, then look for the first waiting one. */
  method FirstToStart<T>(q: map<Id, T>, order: seq<Id>, statusOf: T -> Status, max: int) returns (next: Option<Id>)
    ensures Dispatches(q, order, statusOf, max, next)
  {
    var count := 0;
    var i := 0;
    while i < |order|
      invariant 0 <= i <= |order|
      invariant count == CountStatus(q, order[..i], statusOf, Downloading)
    {
      assert order[..i + 1][..i] == order[..i];
      if order[i] in q && statusOf(q[order[i]]) == Downloading {
        count := count + 1;
      }
      i := i + 1;
    }
    assert order[..i] == order;
    if count >= max {
      return None;
    }
    i := 0;
    while i < |order|
      invariant 0 <= i <= |order|
      invariant forall j | 0 <= j < i && order[j] in q :: statusOf(q[order[j]]) != Waiting
    {
      if order[i] in q && statusOf(q[order[i]]) == Waiting {
        return Some(order[i]);
      }
      i := i + 1;
    }
    return None;
  }

  // ---------------------------------------------------------------------
  // New items

  /** The detail shown while a live stream has not started. */
  const WaitingDetail: string := "ライブ配信開始を待機中..."

  /** `_handle_live_download` on an item, given what the live probe
      reports: the report is kept, and the item waits for the stream when
      the stream is not live and the live mode is `wait`. */
  function WithLiveStatus(item: Item, probe: LiveStatus): Item {
    var noted := item.(liveInfo := Some(probe));
    if !IsLiveNow(probe) && LiveMode(item.options) == "wait" then
      noted.(status := WaitingForLive, details := WaitingDetail)
    else noted
  }

  /** The item `add_to_queue` creates for one url of the given kind. */
  function NewEntry(id: Id, url: string, options: Options, kind: ContentType, stamp: string, probe: LiveStatus): Item {
    var item := Item(id, url, Waiting, 0.0, "", None, options, kind, stamp, None);
    if kind == Live then WithLiveStatus(item, probe) else item
  }

  /** A new item waits with progress 0 and no details, except a live stream
      that is not yet live in `wait` mode, which waits for the stream. */
  lemma NewEntryShape(id: Id, url: string, options: Options, kind: ContentType, stamp: string, probe: LiveStatus)
    ensures var e := NewEntry(id, url, options, kind, stamp, probe);
            e.id == id && e.url == url && e.options == options && e.createdAt == stamp
            && e.contentType == kind && e.progress == 0.0 && e.detailsKey.None?
            && (e.status == WaitingForLive <==>
                  kind == Live && !IsLiveNow(probe) && LiveMode(options) == "wait")
            && (e.status == WaitingForLive ==> e.details == WaitingDetail)
            && (e.status != WaitingForLive ==> e.status == Waiting && e.details == "")
            && (e.liveInfo.Some? <==> kind == Live)
            && (e.liveInfo.Some? ==> e.liveInfo.value == probe)
  {
  }

  // ---------------------------------------------------------------------
  // One run of the downloader

  /** `item.get('content_type') == 'live'` picks the live builder. */
  function CommandFor(item: Item): seq<Arg> {
    if item.contentType == Live then LiveCommand(item.url, item.options) else DownloadCommand(item.url, item.options)
  }

  /** The builder call of `run_download_process`. */
  method BuildCommandFor(item: Item) returns (argv: seq<Arg>)
    ensures argv == CommandFor(item)
  {
    if item.contentType == Live {
      argv := BuildLiveCommand(item.url, item.options);
    } else {
      argv := BuildDownloadCommand(item.url, item.options);
    }
  }

  /** `run_download_process` goes on past its early returns. */
  predicate Startable(q: map<Id, Item>, id: Id) {
    id in q && q[id].status != WaitingForLive
  }

  /** The item after one parsed line of the downloader's output. */
  function Progressed(item: Item, update: ProgressUpdate): Item {
    match update
    case Update(p, d) => item.(progress := p, details := d)
    case NoProgress => item
    case Raises(_) => item
  }

  /** `process.stderr.read().strip()` reduced to its last line, or
      `Unknown error` when nothing is left. */
  function ErrorDetail(stderr: string): string {
    var t := Strip(stderr);
    if t == "" then "Unknown error" else LastLine(t)
  }

  /** The classification after the process exits, for an item still in the
      queue. */
  function Finished(item: Item, returnCode: int, stderr: string): Item {
    if returnCode == 0 then item.(status := Completed, progress := 100.0, detailsKey := Some("details_completed"))
    else if item.status == Cancelled then item.(detailsKey := Some("details_cancelled"))
    else item.(status := Error, details := ErrorDetail(stderr))
  }

  /** The `except` branch for an item still in the queue. */
  function Failed(item: Item, message: string): Item {
    item.(status := Error, details := message)
  }

  /** Exit code 0 completes the item; otherwise a cancelled item stays
      cancelled and any other becomes an error whose detail is the last
      line of the trimmed error output, or `Unknown error`. */
  lemma FinishedClassifies(item: Item, returnCode: int, stderr: string)
    ensures var r := Finished(item, returnCode, stderr);
            r.id == item.id && r.url == item.url && r.options == item.options
            && (returnCode == 0 ==> r.status == Completed && r.progress == 100.0 && r.detailsKey == Some("details_completed"))
            && (returnCode != 0 && item.status == Cancelled ==>
                  r.status == Cancelled && r.details == item.details && r.detailsKey == Some("details_cancelled"))
            && (returnCode != 0 && item.status != Cancelled ==> r.status == Error && r.details == ErrorDetail(stderr))
  {
  }

  /** The error detail is `Unknown error` for an empty trimmed output, and
      otherwise the part of it after its last line feed. */
  lemma ErrorDetailIsLastLine(stderr: string)
    ensures Strip(stderr) == "" ==> ErrorDetail(stderr) == "Unknown error"
    ensures Strip(stderr) != "" ==>
              var t := Strip(stderr);
              var r := ErrorDetail(stderr);
              '\n' !in r
              && exists pre: string :: t == pre + r && (pre == [] || pre[|pre| - 1] == '\n')
  {
    var t := Strip(stderr);
    if t != "" {
      var r := LastLine(t);
      var pre := t[..|t| - |r|];
      assert t == pre + r;
      assert pre == [] || pre[|pre| - 1] == '\n';
      assert ErrorDetail(stderr) == r;
    }
  }

  /** What the output loop has shown so far: the progress and details of
      the item, and the error a line raised, which ends the loop. */
  datatype Reading = Reading(progress: real, details: string, raised: Option<string>)

  /** The item showing what the loop has read. */
  function Shown(item: Item, r: Reading): Item {
    item.(progress := r.progress, details := r.details)
  }

  /** The `for line in ...` loop over the output lines, each parsed with
      `parse`, from the progress and details the item had. */
  function ReadLines(parse: string -> ProgressUpdate, progress: real, details: string, lines: seq<string>): Reading
    decreases |lines|
  {
    if lines == [] then Reading(progress, details, None)
    else
      var r := ReadLines(parse, progress, details, lines[..|lines| - 1]);
      if r.raised.Some? then r
      else
        match parse(lines[|lines| - 1])
        case Raises(m) => r.(raised := Some(m))
        case Update(p, d) => Reading(p, d, None)
        case NoProgress => r
  }

  /** The loop ends with an error exactly when some line raises, and the
      error is that of the first such line. */
  lemma {:induction false} ReadLinesRaisesFirst(parse: string -> ProgressUpdate, progress: real, details: string,
                                                lines: seq<string>)
    ensures var r := ReadLines(parse, progress, details, lines);
            (r.raised.Some? <==> exists k | 0 <= k < |lines| :: parse(lines[k]).Raises?)
            && (r.raised.Some? ==>
                  exists k | 0 <= k < |lines| ::
                    parse(lines[k]) == Raises(r.raised.value) && forall j | 0 <= j < k :: !parse(lines[j]).Raises?)
    decreases |lines|
  {
    if lines != [] {
      var init := lines[..|lines| - 1];
      ReadLinesRaisesFirst(parse, progress, details, init);
      var r := ReadLines(parse, progress, details, init);
      if r.raised.Some? {
        var k :| 0 <= k < |init| && parse(init[k]) == Raises(r.raised.value)
                 && forall j | 0 <= j < k :: !parse(init[j]).Raises?;
        assert lines[k] == init[k];
        assert forall j | 0 <= j < k :: lines[j] == init[j];
      } else {
        assert forall j | 0 <= j < |init| :: lines[j] == init[j];
        if parse(lines[|lines| - 1]).Raises? {
          assert forall j | 0 <= j < |lines| - 1 :: !parse(lines[j]).Raises?;
        } else {
          forall k | 0 <= k < |lines| ensures !parse(lines[k]).Raises? {
            if k < |init| {
              assert lines[k] == init[k];
            }
          }
        }
      }
    }
  }

  /** Once a line has raised, the lines after it are not read. */
  lemma {:induction false} ReadLinesStops(parse: string -> ProgressUpdate, progress: real, details: string,
                                          lines: seq<string>, i: nat)
    requires i <= |lines| && ReadLines(parse, progress, details, lines[..i]).raised.Some?
    ensures ReadLines(parse, progress, details, lines) == ReadLines(parse, progress, details, lines[..i])
    decreases |lines| - i
  {
    if i < |lines| {
      assert lines[..i + 1][..i] == lines[..i];
      ReadLinesStops(parse, progress, details, lines, i + 1);
    } else {
      assert lines[..i] == lines;
    }
  }

  /** What the downloader does once launched: the output lines it prints,
      its exit code and its error output; or the launch fails. */
  datatype RunOutcome =
    | Spawned(handle: nat, lines: seq<string>, exitCode: int, stderr: string)
    | SpawnFailed(message: string)

  /** The item after an uninterrupted run, from the moment it is marked
      downloading. */
  function RunResult(parse: string -> ProgressUpdate, item: Item, run: RunOutcome): Item {
    Ran(parse, item.(status := Downloading), run)
  }

  /** The same, from the item as it is once marked downloading. */
  function Ran(parse: string -> ProgressUpdate, started: Item, run: RunOutcome): Item {
    match run
    case SpawnFailed(m) => Failed(started, m)
    case Spawned(_, lines, code, stderr) =>
      var r := ReadLines(parse, started.progress, started.details, lines);
      Concluded(Shown(started, r), r.raised, code, stderr)
  }

  /** The item after its output was read: failed with the error a line
      raised, or classified by its exit code. */
  function Concluded(item: Item, raised: Option<string>, code: int, stderr: string): Item {
    if raised.Some? then Failed(item, raised.value) else Finished(item, code, stderr)
  }

  /** A run that starts ends completed exactly when the process was
      launched, no output line raised and the exit code is 0, and in error
      otherwise; it never ends cancelled or still downloading. */
  lemma RunEnds(parse: string -> ProgressUpdate, item: Item, run: RunOutcome)
    ensures var r := RunResult(parse, item, run);
            var read := ReadLines(parse, item.progress, item.details, if run.Spawned? then run.lines else []);
            r.id == item.id && r.url == item.url && r.options == item.options
            && (r.status == Completed || r.status == Error)
            && (r.status == Completed <==> run.Spawned? && read.raised.None? && run.exitCode == 0)
            && (r.status == Completed ==> r.progress == 100.0 && r.detailsKey == Some("details_completed"))
            && (run.SpawnFailed? ==> r.details == run.message)
            && (run.Spawned? && read.raised.Some? ==> r.details == read.raised.value)
            && (run.Spawned? && read.raised.None? && run.exitCode != 0 ==> r.details == ErrorDetail(run.stderr))
  {
  }

  /** `Popen` was called with this argument vector for this item. */
  datatype Launch = Launch(id: Id, command: seq<Arg>, handle: nat)

  /** The statuses `clear_completed` keeps. */
  predicate Busy(st: Status) {
    st == Downloading || st == Waiting || st == WaitingForLive
  }

  function Removable(q: map<Id, Item>): Id -> bool {
    x => x in q && !Busy(q[x].status)
  }

  /** The list comprehension of `clear_completed` names exactly the items
      that are neither downloading nor waiting. */
  lemma RemovableListed(q: map<Id, Item>, order: seq<Id>, x: Id)
    requires Consistent(q, order)
    ensures x in Keep(order, Removable(q)) <==> x in q && !Busy(q[x].status)
  {
    KeepCounts(order, Removable(q), x);
  }

  /** The keys left once the listed items are popped are those of the busy
      items. */
  lemma ClearedKeys(q: map<Id, Item>, order: seq<Id>, q': map<Id, Item>)
    requires Consistent(q, order)
    requires forall x :: x in q' <==> x in q && x !in Keep(order, Removable(q))
    ensures forall x :: x in q' <==> x in q && Busy(q[x].status)
  {
    forall x
      ensures x in q' <==> x in q && Busy(q[x].status)
    {
      RemovableListed(q, order, x);
    }
  }

  /** Filtering the order to the queue's own keys keeps all of it. */
  lemma {:induction false} KeepAll<T>(order: seq<Id>, q: map<Id, T>)
    requires forall k | 0 <= k < |order| :: order[k] in q
    ensures Keep(order, Present(q)) == order
    decreases |order|
  {
    if order != [] {
      KeepAll(order[..|order| - 1], q);
    }
  }

  /** No item in the queue is cancelled. */
  predicate NoneCancelled(q: map<Id, Item>) {
    forall x | x in q :: q[x].status != Cancelled
  }

  /** In a queue without cancelled items the exit classification never takes
      its `cancelled` branch. */
  lemma FinishedNeverCancelled(item: Item, returnCode: int, stderr: string)
    requires item.status != Cancelled
    ensures Finished(item, returnCode, stderr).status in {Completed, Error}
  {
  }

  // ---------------------------------------------------------------------
  // The manager

  class Manager {
    /** `download_queue`, with its insertion order. */
    var queue: map<Id, Item>
    var order: seq<Id>
    /** `active_processes`: the process handle of each running download. */
    var active: map<Id, nat>
    /** Every `Popen` call, in order. */
    var launched: seq<Launch>
    /** Every `terminate` call, in order. */
    var terminated: seq<nat>
    /** The line parser, `parse_progress` of the downloader module. */
    const parse: string -> ProgressUpdate
    /** The url classifier, `detect_content_type` of the content analyzer. */
    const classify: string -> ContentType

    ghost predicate Valid()
      reads this
    {
      Consistent(queue, order) && forall x | x in queue :: queue[x].id == x
    }

    constructor()
      ensures Valid()
      ensures queue == map[] && order == [] && active == map[] && launched == [] && terminated == []
      ensures parse == ParseProgress && classify == ContentTypeOf
    {
      parse := ParseProgress;
      classify := ContentTypeOf;
      queue := map[];
      order := [];
      active := map[];
      launched := [];
      terminated := [];
    }

    /** `start_next_download`, with `concurrentDownloads` from the settings
        (1 when absent) as `maxDownloads`. */
    method StartNext(maxDownloads: int) returns (next: Option<Id>)
      ensures Dispatches(queue, order, StatusOf, maxDownloads, next)
    {
      next := FirstToStart(queue, order, StatusOf, maxDownloads);
    }

    /** `_handle_live_download`. */
    method HandleLiveDownload(id: Id, probe: LiveStatus)
      requires Valid()
      modifies this
      ensures Valid()
      ensures queue == if id in old(queue) then old(queue)[id := WithLiveStatus(old(queue)[id], probe)] else old(queue)
      ensures order == old(order) && active == old(active) && launched == old(launched) && terminated == old(terminated)
    {
      if id !in queue {
        return;
      }
      queue := queue[id := WithLiveStatus(queue[id], probe)];
    }

    /** The body of the `for url in urls` loop: a fresh item under the id,
        passed to `_handle_live_download` when the url is a live stream. */
    method Enqueue(id: Id, url: string, options: Options, stamp: string, probe: LiveStatus)
      requires Valid() && id !in queue
      modifies this
      ensures Valid()
      ensures queue == old(queue)[id := NewEntry(id, url, options, classify(url), stamp, probe)]
      ensures id in queue && queue[id] == NewEntry(id, url, options, classify(url), stamp, probe)
      ensures forall x | x in old(queue) :: x in queue && queue[x] == old(queue)[x]
      ensures forall x | x != id && x !in old(queue) :: x !in queue
      ensures order == old(order) + [id]
      ensures active == old(active) && launched == old(launched) && terminated == old(terminated)
    {
      assert multiset(order)[id] == 0;
      var contentType := classify(url);
      var item := Item(id, url, Waiting, 0.0, "", None, options, contentType, stamp, None);
      queue := queue[id := item];
      order := order + [id];
      if contentType == Live {
        HandleLiveDownload(id, probe);
        UpdateTwice(old(queue), id, item, WithLiveStatus(item, probe));
      }
      FreshUpdate(old(queue), id, NewEntry(id, url, options, contentType, stamp, probe));
    }

    /** `add_to_queue`: one new item per url, under the fresh id `ids[k]`
        with creation stamp `stamps[k]`; `probes[k]` is what the live probe
        reports for the url, used only when the url is a live stream. The
        dispatcher runs afterwards. */
    method AddToQueue(urls: seq<string>, options: Options, ids: seq<Id>, stamps: seq<string>,
                      probes: seq<LiveStatus>, maxDownloads: int) returns (next: Option<Id>)
      requires Valid()
      requires |ids| == |urls| && |stamps| == |urls| && |probes| == |urls|
      requires Distinct(ids) && forall k | 0 <= k < |ids| :: ids[k] !in queue
      modifies this
      ensures Valid()
      ensures order == old(order) + ids
      ensures forall k | 0 <= k < |ids| :: queue[ids[k]] == NewEntry(ids[k], urls[k], options, classify(urls[k]), stamps[k], probes[k])
      ensures forall x | x in old(queue) :: queue[x] == old(queue)[x]
      ensures active == old(active) && launched == old(launched) && terminated == old(terminated)
      ensures Dispatches(queue, order, StatusOf, maxDownloads, next)
    {
      EnqueueAll(urls, options, ids, stamps, probes);
      next := StartNext(maxDownloads);
    }

    /** The `for url in urls` loop of `add_to_queue`. */
    method EnqueueAll(urls: seq<string>, options: Options, ids: seq<Id>, stamps: seq<string>, probes: seq<LiveStatus>)
      requires Valid()
      requires |ids| == |urls| && |stamps| == |urls| && |probes| == |urls|
      requires Distinct(ids) && forall k | 0 <= k < |ids| :: ids[k] !in queue
      modifies this
      ensures Valid()
      ensures order == old(order) + ids
      ensures forall k | 0 <= k < |ids| :: ids[k] in queue && queue[ids[k]] == NewEntry(ids[k], urls[k], options, classify(urls[k]), stamps[k], probes[k])
      ensures forall x | x in old(queue) :: x in queue && queue[x] == old(queue)[x]
      ensures active == old(active) && launched == old(launched) && terminated == old(terminated)
    {
      var k := 0;
      while k < |urls|
        invariant 0 <= k <= |urls|
        invariant Valid()
        invariant order == old(order) + ids[..k]
        invariant forall j | k <= j < |ids| :: ids[j] !in queue
        invariant forall j | 0 <= j < k :: ids[j] in queue && queue[ids[j]] == NewEntry(ids[j], urls[j], options, classify(urls[j]), stamps[j], probes[j])
        invariant forall x | x in old(queue) :: x in queue && queue[x] == old(queue)[x]
        invariant active == old(active) && launched == old(launched) && terminated == old(terminated)
      {
        var id := ids[k];
        Enqueue(id, urls[k], options, stamps[k], probes[k]);
        forall j | k < j < |ids| ensures ids[j] !in queue {
          assert ids[j] != id;
        }
        assert ids[..k + 1] == ids[..k] + [id];
        k := k + 1;
      }
      assert ids[..k] == ids;
    }

    /** The first locked block of `run_download_process`: an item that is
        missing or waiting for its stream is left alone (the early returns,
        which skip the `finally` block); any other is marked downloading, and
        its command is built with the live builder for a live stream and the
        default builder otherwise. */
    method BeginRun(id: Id) returns (command: Option<seq<Arg>>)
      requires Valid()
      modifies this
      ensures Valid()
      ensures !Startable(old(queue), id) ==> queue == old(queue) && command.None?
      ensures Startable(old(queue), id) ==>
                queue == old(queue)[id := old(queue)[id].(status := Downloading)]
                && command == Some(CommandFor(old(queue)[id]))
      ensures order == old(order) && active == old(active) && launched == old(launched) && terminated == old(terminated)
    {
      if id !in queue {
        return None;
      }
      var item := queue[id];
      if item.status == WaitingForLive {
        return None;
      }
      queue := queue[id := item.(status := Downloading)];
      var argv := BuildCommandFor(item);
      command := Some(argv);
    }

    /** `Popen` succeeded: the process is registered under the item's id. */
    method Launched(id: Id, command: seq<Arg>, handle: nat)
      modifies this
      ensures active == old(active)[id := handle]
      ensures launched == old(launched) + [Launch(id, command, handle)]
      ensures queue == old(queue) && order == old(order) && terminated == old(terminated)
    {
      active := active[id := handle];
      launched := launched + [Launch(id, command, handle)];
    }

    /** One output line: a progress line updates the item, even one no
        longer in the queue (where nothing shows it); a line whose
        percentage `float` rejects raises, which is returned. */
    method ApplyLine(id: Id, line: string) returns (raised: Option<string>)
      requires Valid()
      modifies this
      ensures Valid()
      ensures raised == if parse(line).Raises? then Some(parse(line).message) else None
      ensures queue == if id in old(queue) then old(queue)[id := Progressed(old(queue)[id], parse(line))] else old(queue)
      ensures order == old(order) && active == old(active) && launched == old(launched) && terminated == old(terminated)
    {
      var update := parse(line);
      raised := None;
      match update
      case Raises(m) =>
        raised := Some(m);
      case NoProgress =>
      case Update(p, d) =>
        if id in queue {
          queue := queue[id := queue[id].(progress := p, details := d)];
        }
    }

    /** The `finally` block: the process leaves the registry and the
        dispatcher runs. */
    method Release(id: Id, maxDownloads: int) returns (next: Option<Id>)
      modifies this
      ensures active == old(active) - {id}
      ensures queue == old(queue) && order == old(order) && launched == old(launched) && terminated == old(terminated)
      ensures Dispatches(queue, order, StatusOf, maxDownloads, next)
    {
      active := active - {id};
      next := StartNext(maxDownloads);
    }

    /** The process exited: an item removed meanwhile is left alone, any
        other is classified by Finished; then the `finally` block. */
    method Finish(id: Id, returnCode: int, stderr: string, maxDownloads: int) returns (next: Option<Id>)
      requires Valid()
      modifies this
      ensures Valid()
      ensures queue == if id in old(queue) then old(queue)[id := Finished(old(queue)[id], returnCode, stderr)] else old(queue)
      ensures NoneCancelled(old(queue)) ==> NoneCancelled(queue)
      ensures active == old(active) - {id}
      ensures order == old(order) && launched == old(launched) && terminated == old(terminated)
      ensures Dispatches(queue, order, StatusOf, maxDownloads, next)
    {
      if id in queue {
        var item := queue[id];
        if returnCode == 0 {
          item := item.(status := Completed, progress := 100.0, detailsKey := Some("details_completed"));
        } else if item.status == Cancelled {
          item := item.(detailsKey := Some("details_cancelled"));
        } else {
          var output := Strip(stderr);
          item := item.(status := Error, details := if output != "" then LastLine(output) else "Unknown error");
        }
        queue := queue[id := item];
      }
      next := Release(id, maxDownloads);
    }

    /** The `except` block: an item still in the queue becomes an error with
        the exception's text; then the `finally` block. */
    method Fail(id: Id, message: string, maxDownloads: int) returns (next: Option<Id>)
      requires Valid()
      modifies this
      ensures Valid()
      ensures queue == if id in old(queue) then old(queue)[id := Failed(old(queue)[id], message)] else old(queue)
      ensures NoneCancelled(old(queue)) ==> NoneCancelled(queue)
      ensures active == old(active) - {id}
      ensures order == old(order) && launched == old(launched) && terminated == old(terminated)
      ensures Dispatches(queue, order, StatusOf, maxDownloads, next)
    {
      if id in queue {
        queue := queue[id := Failed(queue[id], message)];
      }
      next := Release(id, maxDownloads);
    }

    /** The loop over the process's output, up to the first line that
        raises. */
    method ReadOutput(id: Id, lines: seq<string>) returns (raised: Option<string>)
      requires Valid() && id in queue
      modifies this
      ensures Valid()
      ensures var r := ReadLines(parse, old(queue)[id].progress, old(queue)[id].details, lines);
              queue == old(queue)[id := Shown(old(queue)[id], r)] && raised == r.raised
      ensures order == old(order) && active == old(active) && launched == old(launched) && terminated == old(terminated)
    {
      var start := queue[id];
      var i := 0;
      raised := None;
      assert queue == old(queue)[id := Shown(start, Reading(start.progress, start.details, None))];
      while i < |lines| && raised.None?
        invariant 0 <= i <= |lines|
        invariant Valid()
        invariant var r := ReadLines(parse, start.progress, start.details, lines[..i]);
                  queue == old(queue)[id := Shown(start, r)] && raised == r.raised
        invariant order == old(order) && active == old(active) && launched == old(launched) && terminated == old(terminated)
      {
        assert lines[..i + 1][..i] == lines[..i];
        ghost var before := queue[id];
        raised := ApplyLine(id, lines[i]);
        UpdateTwice(old(queue), id, before, queue[id]);
        i := i + 1;
      }
      if raised.Some? {
        ReadLinesStops(parse, start.progress, start.details, lines, i);
      } else {
        assert lines[..i] == lines;
      }
    }

    /** `run_download_process` when nothing else happens to the queue while
        the process runs. */
    method RunDownload(id: Id, run: RunOutcome, maxDownloads: int) returns (next: Option<Id>)
      requires Valid()
      modifies this
      ensures Valid()
      ensures !Startable(old(queue), id) ==>
                queue == old(queue) && active == old(active) && launched == old(launched) && next.None?
      ensures Startable(old(queue), id) ==>
                queue == old(queue)[id := RunResult(parse, old(queue)[id], run)]
                && active == old(active) - {id}
                && launched == old(launched) + (if run.Spawned? then [Launch(id, CommandFor(old(queue)[id]), run.handle)] else [])
                && Dispatches(queue, order, StatusOf, maxDownloads, next)
      ensures order == old(order) && terminated == old(terminated)
    {
      var command := BeginRun(id);
      if command.None? {
        return None;
      }
      ghost var started := queue[id];
      next := RunStarted(id, command.value, run, maxDownloads);
      UpdateTwice(old(queue), id, started, Ran(parse, started, run));
    }

    /** The rest of `run_download_process` once the item is downloading:
        the launch, the output loop, the exit classification or the
        `except` block, and the `finally` block. */
    method RunStarted(id: Id, command: seq<Arg>, run: RunOutcome, maxDownloads: int) returns (next: Option<Id>)
      requires Valid() && id in queue
      modifies this
      ensures Valid()
      ensures queue == old(queue)[id := Ran(parse, old(queue)[id], run)]
      ensures active == old(active) - {id}
      ensures launched == old(launched) + (if run.Spawned? then [Launch(id, command, run.handle)] else [])
      ensures order == old(order) && terminated == old(terminated)
      ensures Dispatches(queue, order, StatusOf, maxDownloads, next)
    {
      match run
      case SpawnFailed(message) =>
        next := Fail(id, message, maxDownloads);
      case Spawned(handle, lines, exitCode, stderr) =>
        Launched(id, command, handle);
        next := Consume(id, lines, exitCode, stderr, maxDownloads);
        UpdateThenRemove(old(active), id, handle);
    }

    /** The output loop and what follows it, for a launched process. */
    method Consume(id: Id, lines: seq<string>, exitCode: int, stderr: string, maxDownloads: int) returns (next: Option<Id>)
      requires Valid() && id in queue
      modifies this
      ensures Valid()
      ensures var r := ReadLines(parse, old(queue)[id].progress, old(queue)[id].details, lines);
              queue == old(queue)[id := Concluded(Shown(old(queue)[id], r), r.raised, exitCode, stderr)]
      ensures active == old(active) - {id}
      ensures order == old(order) && launched == old(launched) && terminated == old(terminated)
      ensures Dispatches(queue, order, StatusOf, maxDownloads, next)
    {
      var raised := ReadOutput(id, lines);
      ghost var read := queue;
      next := Conclude(id, raised, exitCode, stderr, maxDownloads);
      UpdateTwice(old(queue), id, read[id], queue[id]);
    }

    /** After the output loop: the `except` block when a line raised, the
        exit classification otherwise; then the `finally` block. */
    method Conclude(id: Id, raised: Option<string>, exitCode: int, stderr: string, maxDownloads: int)
      returns (next: Option<Id>)
      requires Valid() && id in queue
      modifies this
      ensures Valid()
      ensures queue == old(queue)[id := Concluded(old(queue)[id], raised, exitCode, stderr)]
      ensures active == old(active) - {id}
      ensures order == old(order) && launched == old(launched) && terminated == old(terminated)
      ensures Dispatches(queue, order, StatusOf, maxDownloads, next)
    {
      if raised.Some? {
        next := Fail(id, raised.value, maxDownloads);
      } else {
        next := Finish(id, exitCode, stderr, maxDownloads);
      }
    }

    /** `download_queue.pop(id, None)`: the key leaves the map and the
        order; a missing key changes nothing. */
    method Pop(id: Id)
      requires Valid()
      modifies this
      ensures Valid()
      ensures queue == old(queue) - {id}
      ensures order == Without(old(order), id)
      ensures active == old(active) && launched == old(launched) && terminated == old(terminated)
    {
      if id in queue {
        PopConsistent(queue, order, id);
        queue := queue - {id};
        order := Without(order, id);
      } else {
        WithoutMissing(order, id);
      }
    }

    /** `remove_item`: a downloading item whose process is registered has
        its process terminated and taken out of the registry; the item is
        removed whatever its status; an unknown id changes nothing. */
    method RemoveItem(id: Id)
      requires Valid()
      modifies this
      ensures Valid()
      ensures queue == old(queue) - {id}
      ensures order == Without(old(order), id)
      ensures var cancels := id in old(queue) && old(queue)[id].status == Downloading;
              active == (if cancels then old(active) - {id} else old(active))
              && terminated == old(terminated) + (if cancels && id in old(active) then [old(active)[id]] else [])
      ensures NoneCancelled(old(queue)) ==> NoneCancelled(queue)
      ensures launched == old(launched)
    {
      if id in queue {
        var item := queue[id];
        if item.status == Downloading {
          if id in active {
            var process := active[id];
            active := active - {id};
            terminated := terminated + [process];
            queue := queue[id := item.(status := Cancelled)];
            UpdateThenRemove(old(queue), id, item.(status := Cancelled));
          }
        }
      }
      Pop(id);
    }

    /** The `for` loop of `clear_completed`: each listed id is popped. */
    method PopAll(ids: seq<Id>)
      requires Valid()
      modifies this
      ensures Valid()
      ensures forall x :: x in queue <==> x in old(queue) && x !in ids
      ensures forall x | x in queue :: queue[x] == old(queue)[x]
      ensures order == Keep(old(order), Present(queue))
      ensures active == old(active) && launched == old(launched) && terminated == old(terminated)
    {
      KeepAll(order, queue);
      var i := 0;
      ghost var popped: set<Id> := {};
      while i < |ids|
        invariant 0 <= i <= |ids|
        invariant Valid()
        invariant forall x :: x in queue <==> x in old(queue) && x !in popped
        invariant forall j | 0 <= j < i :: ids[j] in popped
        invariant forall x | x in popped :: x in ids
        invariant forall x | x in queue :: queue[x] == old(queue)[x]
        invariant order == Keep(old(order), Present(queue))
        invariant active == old(active) && launched == old(launched) && terminated == old(terminated)
      {
        KeepWithout(old(order), queue, ids[i]);
        Pop(ids[i]);
        popped := popped + {ids[i]};
        i := i + 1;
      }
    }

    /** `clear_completed`: removes exactly the items that are not
        downloading or waiting, and keeps the rest unchanged and in order. */
    method ClearCompleted()
      requires Valid()
      modifies this
      ensures Valid()
      ensures forall x :: x in queue <==> x in old(queue) && Busy(old(queue)[x].status)
      ensures forall x | x in queue :: queue[x] == old(queue)[x]
      ensures order == Keep(old(order), Present(queue))
      ensures active == old(active) && launched == old(launched) && terminated == old(terminated)
    {
      var toRemove := Keep(order, Removable(queue));
      PopAll(toRemove);
      ClearedKeys(old(queue), old(order), queue);
    }
  }
}
