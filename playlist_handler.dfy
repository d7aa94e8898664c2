/** `PlaylistHandler` of `app/playlist_handler.py`: the summary of a probed
    playlist, the filter on selected entries and the download options of a
    playlist item. The yt-dlp probe is an input. */
module PlaylistHandler {
  import opened Text
  import opened Wrappers
  import opened Entities
  import opened Lists

  /** An entry as the flat playlist probe reports it; `None` stands for an
      absent key. */
  datatype RawEntry = RawEntry(
    title: Option<string>,
    url: Option<string>,
    webpageUrl: Option<string>,
    duration: Option<int>,
    id: Option<string>,
    uploader: Option<string>,
    viewCount: Option<int>,
    uploadDate: Option<string>)

  /** An entry of the summary. */
  datatype Entry = Entry(
    title: string,
    url: string,
    duration: Option<int>,
    id: string,
    uploader: string,
    viewCount: Option<int>,
    uploadDate: Option<string>)

  /** What the probe of a playlist gave. */
  datatype PlaylistProbe =
    | PlaylistProbed(title: Option<string>, uploader: Option<string>, playlistCount: Option<int>,
                     description: Option<string>, entries: seq<RawEntry>)
    | PlaylistProbeFailed(message: string)

  /** The dictionary `get_playlist_info` returns. */
  datatype PlaylistInfo =
    | PlaylistOk(title: string, uploader: string, entryCount: nat, totalEntries: int,
                 entries: seq<Entry>, description: string)
    | PlaylistFailed(error: string)

  /** The number of entries the summary keeps by default. */
  const DefaultMaxEntries: int := 100

  /** The summary of the entry at position `i` (counted from 0). */
  function EntryAt(e: RawEntry, i: nat): Entry {
    Entry(
      e.title.GetOr("動画 " + NatToString(i + 1)),
      if e.url.Some? then e.url.value else e.webpageUrl.GetOr(""),
      e.duration,
      e.id.GetOr(""),
      e.uploader.GetOr(""),
      e.viewCount,
      e.uploadDate)
  }

  /** How many entries the loop keeps before it breaks. */
  function KeptCount(n: nat, maxEntries: int): (k: nat)
    ensures k <= n && (maxEntries >= 0 ==> k <= maxEntries)
    ensures maxEntries <= 0 ==> k == 0
    ensures k == n || k == maxEntries || maxEntries <= 0
  {
    if maxEntries <= 0 then 0 else if n <= maxEntries then n else maxEntries
  }

  /** The entries of the summary: the first KeptCount entries, each summarised
      with its own position. */
  function Summaries(entries: seq<RawEntry>, maxEntries: int): (r: seq<Entry>)
    ensures |r| == KeptCount(|entries|, maxEntries)
  {
    var k := KeptCount(|entries|, maxEntries);
    seq(k, i requires 0 <= i < k => EntryAt(entries[i], i))
  }

  /** The `enumerate` loop with its `break` at `max_entries`. */
  method SummarizeEntries(entries: seq<RawEntry>, maxEntries: int) returns (processed: seq<Entry>)
    ensures |processed| == KeptCount(|entries|, maxEntries)
    ensures forall i | 0 <= i < |processed| :: processed[i] == EntryAt(entries[i], i)
  {
    processed := [];
    var i := 0;
    while i < |entries|
      invariant 0 <= i <= |entries|
      invariant i <= KeptCount(|entries|, maxEntries)
      invariant |processed| == i
      invariant forall k | 0 <= k < i :: processed[k] == EntryAt(entries[k], k)
    {
      if i >= maxEntries {
        break;
      }
      processed := processed + [EntryAt(entries[i], i)];
      i := i + 1;
    }
  }

  /** `get_playlist_info` on the probe's outcome. */
  function PlaylistInfoOf(probe: PlaylistProbe, maxEntries: int): (r: PlaylistInfo)
    ensures probe.PlaylistProbeFailed? ==> r == PlaylistFailed(probe.message)
    ensures probe.PlaylistProbed? ==>
              r.PlaylistOk?
              && r.entryCount == |r.entries| == KeptCount(|probe.entries|, maxEntries)
              && (forall i | 0 <= i < |r.entries| :: r.entries[i] == EntryAt(probe.entries[i], i))
              && r.totalEntries == (if probe.playlistCount.Some? then probe.playlistCount.value else r.entryCount)
              && r.title == probe.title.GetOr("プレイリスト")
              && r.uploader == probe.uploader.GetOr("不明")
  {
    match probe
    case PlaylistProbeFailed(m) => PlaylistFailed(m)
    case PlaylistProbed(title, uploader, count, description, entries) =>
      var kept := Summaries(entries, maxEntries);
      PlaylistOk(title.GetOr("プレイリスト"), uploader.GetOr("不明"), |kept|,
                 count.GetOr(|kept|), kept, ShortDescription(description))
  }

  /** The method form, running the entry loop. */
  method GetPlaylistInfo(probe: PlaylistProbe, maxEntries: int) returns (r: PlaylistInfo)
    ensures r == PlaylistInfoOf(probe, maxEntries)
  {
    if probe.PlaylistProbeFailed? {
      return PlaylistFailed(probe.message);
    }
    var processed := SummarizeEntries(probe.entries, maxEntries);
    assert processed == Summaries(probe.entries, maxEntries);
    r := PlaylistOk(probe.title.GetOr("プレイリスト"), probe.uploader.GetOr("不明"), |processed|,
                    probe.playlistCount.GetOr(|processed|), processed, ShortDescription(probe.description));
  }

  /** A missing title is numbered from 1; a missing url falls back to the web
      page url and then to the empty string. */
  lemma EntryDefaults(e: RawEntry, i: nat)
    ensures e.title.None? ==> EntryAt(e, i).title == "動画 " + NatToString(i + 1)
    ensures e.url.None? && e.webpageUrl.Some? ==> EntryAt(e, i).url == e.webpageUrl.value
    ensures e.url.None? && e.webpageUrl.None? ==> EntryAt(e, i).url == ""
    ensures e.url.Some? ==> EntryAt(e, i).url == e.url.value
  {
  }

  /** With the default limit the summary keeps the first 100 entries. */
  lemma DefaultLimit(entries: seq<RawEntry>)
    ensures |Summaries(entries, DefaultMaxEntries)| == if |entries| <= 100 then |entries| else 100
  {
  }

  // ---------------------------------------------------------------------
  // Selection

  predicate IdSelected(e: Entry, selectedIds: seq<string>) {
    e.id in selectedIds
  }

  /** `filter_playlist_entries`. */
  function FilterEntries(entries: seq<Entry>, selectedIds: seq<string>): seq<Entry> {
    if selectedIds == [] then entries else Keep(entries, e => IdSelected(e, selectedIds))
  }

  /** No selection keeps every entry; otherwise the result is the ordered
      subsequence of entries whose id is selected, each kept as often as it
      occurs. */
  lemma FilterEntriesKeepsSelected(entries: seq<Entry>, selectedIds: seq<string>, e: Entry)
    ensures selectedIds == [] ==> FilterEntries(entries, selectedIds) == entries
    ensures selectedIds != [] ==>
              multiset(FilterEntries(entries, selectedIds))[e]
                == if e.id in selectedIds then multiset(entries)[e] else 0
  {
    if selectedIds != [] {
      KeepCounts(entries, x => IdSelected(x, selectedIds), e);
    }
  }

  /** The 1-based positions of the entries whose id is selected, ascending. */
  function SelectedPositions(all: seq<Entry>, selected: seq<string>): (r: seq<nat>)
    ensures forall k | 0 <= k < |r| :: 1 <= r[k] <= |all| && all[r[k] - 1].id in selected
    ensures forall k, l | 0 <= k < l < |r| :: r[k] < r[l]
    decreases |all|
  {
    if all == [] then []
    else
      var init := all[..|all| - 1];
      var r0 := SelectedPositions(init, selected);
      assert forall k | 0 <= k < |r0| :: all[r0[k] - 1] == init[r0[k] - 1];
      r0 + (if all[|all| - 1].id in selected then [|all|] else [])
  }

  /** Every entry whose id is selected has its position in the list. */
  lemma {:induction false} SelectedPositionsComplete(all: seq<Entry>, selected: seq<string>, i: nat)
    requires i < |all| && all[i].id in selected
    ensures i + 1 in SelectedPositions(all, selected)
    decreases |all|
  {
    var init := all[..|all| - 1];
    if i < |init| {
      SelectedPositionsComplete(init, selected, i);
    }
  }

  /** The entries at the given 1-based positions, in the order given. */
  function EntriesAt(all: seq<Entry>, positions: seq<nat>): (r: seq<Entry>)
    requires forall k | 0 <= k < |positions| :: 1 <= positions[k] <= |all|
    ensures |r| == |positions|
    ensures forall k | 0 <= k < |r| :: r[k] == all[positions[k] - 1]
  {
    seq(|positions|, k requires 0 <= k < |positions| => all[positions[k] - 1])
  }

  /** A non-empty selection keeps exactly the entries at the selected
      positions, in playlist order: the same entries that the download
      option `playlist_items` names. */
  lemma FilterEntriesInOrder(entries: seq<Entry>, selectedIds: seq<string>)
    requires selectedIds != []
    ensures FilterEntries(entries, selectedIds) == EntriesAt(entries, SelectedPositions(entries, selectedIds))
  {
    KeepAtPositions(entries, selectedIds);
  }

  lemma {:induction false} KeepAtPositions(all: seq<Entry>, selected: seq<string>)
    ensures Keep(all, e => IdSelected(e, selected)) == EntriesAt(all, SelectedPositions(all, selected))
    decreases |all|
  {
    if all != [] {
      var init, last := all[..|all| - 1], all[|all| - 1];
      var r0 := SelectedPositions(init, selected);
      KeepAtPositions(init, selected);
      var tail := if last.id in selected then [|all|] else [];
      assert SelectedPositions(all, selected) == r0 + tail;
      assert EntriesAt(all, r0 + tail) == EntriesAt(init, r0) + (if last.id in selected then [last] else []);
    }
  }

  /** The positions written as `1,3,4`. */
  function PositionsText(positions: seq<nat>): string {
    JoinWith(",", Map(positions, NatToString))
  }

  /** The playlist keys of a queue item. */
  datatype PlaylistSelection = PlaylistSelection(
    playlistMode: Option<string>,
    selectedEntries: seq<string>,
    allEntries: seq<Entry>)

  /** A copy of the options, with `playlist_items` when it is set. */
  datatype PlaylistOptions = PlaylistOptions(options: Options, playlistItems: Option<string>)

  /** `build_playlist_download_options`. */
  function PlaylistDownloadOptions(options: Options, sel: PlaylistSelection): (r: PlaylistOptions)
    ensures r.options == options
    ensures r.playlistItems.Some? <==> sel.playlistMode == Some("selected") && sel.selectedEntries != []
    ensures r.playlistItems.Some? ==>
              r.playlistItems.value == PositionsText(SelectedPositions(sel.allEntries, sel.selectedEntries))
  {
    if sel.playlistMode == Some("selected") && sel.selectedEntries != [] then
      PlaylistOptions(options, Some(PositionsText(SelectedPositions(sel.allEntries, sel.selectedEntries))))
    else PlaylistOptions(options, None)
  }
}
