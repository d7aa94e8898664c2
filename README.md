# GUI-ytdlp download queue, command builders and display helpers, in Dafny

GUI-ytdlp is a small Windows desktop front end for `yt-dlp`. A Flask/SocketIO
server keeps a queue of download jobs. For each job it builds a `yt-dlp`
command line, runs the process and parses its progress output. A browser UI
shows the queue. This project models the server's core in Dafny. It covers
three parts: the `app/` package, the older single-file `main.py`, and the two
display helpers of `static/js/utils.js`. Every module below verifies with
Dafny 4.11.

- `text.dfy` (modules `Text` and `Wrappers`) holds string helpers. These are
  Python's `str.isspace` class, runs of characters, `strip`, the last line,
  decimal numerals, ASCII upper-casing and `Option`.
- `lists.dfy` (`Lists`) holds the list helpers.
  - An order-preserving filter (a list comprehension).
  - `map`.
  - Python's stable descending `list.sort(key=…, reverse=True)`. This includes
    the `TypeError` that Python raises when it compares a `None` key with a
    number.
- `entities.dfy` (`Entities`) holds the shared entities.
  - The job statuses and the three content types.
  - The options dictionary, as a record of optional fields.
  - Argument vectors. An option that is absent lands in the vector as `None`.
  - `ntpath.join`, the tool paths, the truncated description and the
    custom-argument cookie test.
- `progress.dfy` (`Progress`) and `progress_line.dfy` (`ProgressLine`) model
  `parse_progress`.
  - The regex `\[download\]\s+([\d\.]+)% of\s+~?(.+?)\s+at\s+(.+?)\s+ETA\s+(.+)`
    becomes a backtracking matcher.
  - Its specification is "some match exists", together with the priority order
    that `re.search` explores. The matcher is proved to return the first match
    in that order.
  - `float()` on the percent token becomes an exact decimal value, or the
    `ValueError` that `float('1.2.3')` raises.
  - `ProgressLine` proves the round trip. A line written in yt-dlp's progress
    layout parses back to its own fields.
- `ytdlp_handler.dfy` (`YtDlpHandler`) covers two functions.
  - `build_download_command`, built as a method that extends a list step by
    step.
  - The filtering, sorting and pairing part of `get_available_formats`, over a
    probe result given as input.
- `live_handler.dfy` (`LiveHandler`) covers three things.
  - `check_live_status` over a probe result.
  - `build_live_download_command`.
  - The annotation loop of `get_live_formats`.
- `playlist_handler.dfy` (`PlaylistHandler`) covers three functions.
  - The entry loop of `get_playlist_info`.
  - `filter_playlist_entries`.
  - `build_playlist_download_options`.
- `content_analyzer.dfy` (`ContentAnalyzer`) covers two functions.
  - `detect_content_type`, with hand-written matchers for the seven patterns.
    Matching is unanchored and case-insensitive, and each `.*` stays on one
    line.
  - The result assembly of `analyze_url`.
- `download_manager.dfy` (`DownloadManager`) models `DownloadManager` as a
  class.
  - The insertion-ordered queue becomes a `map` plus an `order` sequence.
  - The process registry `active_processes` becomes a map from id to handle.
  - Process launches and terminations are logged as sequences.
  - Each block that runs under the lock is one method.
- `legacy_main.dfy` (`LegacyMain`) models the same queue in `main.py`.
  - The queue is the class `LegacyApp`.
  - `max_concurrent_downloads` is a field that `save_settings` rewrites.
  - The model proves where the legacy code agrees with the package and where
    it differs.
- `display_utils.dfy` (`DisplayUtils`) models `formatDuration` and
  `formatUploadDate`.
  - JavaScript's truncating `%` is written out.
  - Each function has an inverse: the printed clock reads back to the seconds,
    and removing the slashes gives back the date.

## Model

The table lists the members that have a contract. Some functions define what
an operation computes and have no contract of their own:
`ContentAnalyzer.AnalyzeUrlAsWritten`, `YtDlpHandler.AvailableFormats`,
`YtDlpHandler.DownloadCommand` and `LiveHandler.LiveCommand`. Each of them is
stated by the rows that name it.

| member | source | states |
|---|---|---|
| Entities.PathJoin | app/ytdlp_handler.py:129 | the joined path starts with the directory and ends with the file name; a single backslash is put between them unless the directory is empty, ends with `\` or `/`, or is a bare drive `X:`, and exactly then nothing is put between them |
| Entities.PathsJoined | app/ytdlp_handler.py:9-12 | the tools directory, the downloads directory and the `yt-dlp.exe` path are the install directory joined with `tools`, `downloads` and `tools\yt-dlp.exe` |
| Entities.ShortDescription | app/playlist_handler.py:48 | an absent or empty description gives `''`; otherwise the result is the first `min(len, 200)` characters followed by `...` |
| Entities.LStripDashes | app/ytdlp_handler.py:141 | the result is a suffix of the argument, everything removed was `-`, and the result does not start with `-` |
| Entities.FindCookieArg | app/ytdlp_handler.py:141 | the loop answers true exactly when some custom argument, with its leading dashes removed, is `cookies` or `cookies-from-browser` |
| YtDlpHandler.BuildDownloadCommand | app/ytdlp_handler.py:126-145 | the list grown step by step equals the command that the lemmas below describe |
| YtDlpHandler.CommandHeadShape | app/ytdlp_handler.py:127-131 | the six leading arguments are the tool path, the url, `--progress`, `-o`, a path inside the save directory ending in the output template, and `--windows-filenames` |
| YtDlpHandler.DownloadCommandHead | app/ytdlp_handler.py:128-131 | every download command begins with those six arguments |
| YtDlpHandler.DownloadCommandTail | app/ytdlp_handler.py:144 | the custom arguments end the command, in their original order |
| YtDlpHandler.SelectedFormatWins | app/ytdlp_handler.py:134-136 | a non-empty selected format other than `custom` adds `-f <format>` right after the head, and nothing else about the format (no audio-only arguments) |
| YtDlpHandler.AudioOnlyArgs | app/ytdlp_handler.py:137-138 | without such a format, audio-only adds `-x --audio-format <format or best> -f bestaudio/best` right after the head |
| YtDlpHandler.NoFormatArgs | app/ytdlp_handler.py:134-138 | with neither, no format argument appears: only the head, the cookie pair and the custom arguments |
| YtDlpHandler.CookieRule | app/ytdlp_handler.py:140-143 | when the browser is not `none` and no custom argument names cookies, `--cookies-from-browser <browser>` sits just before the custom arguments |
| YtDlpHandler.RoundHalfEvenClose | app/ytdlp_handler.py:100-101 | the rounded quotient is within half a unit of the exact one, and ties go to the even neighbour |
| YtDlpHandler.MegabyteTextClose | app/ytdlp_handler.py:99-101 | the size label reads back as the file size in MiB rounded half-even to one decimal |
| YtDlpHandler.Collect | app/ytdlp_handler.py:63-75 | the append loop keeps exactly the formats that the filter keeps, in probe order |
| Lists.SortByKeyDesc | app/ytdlp_handler.py:78 | the sort fails exactly when there are two or more items and some key is `None` (Python cannot order `None` against a number or against `None`); otherwise it yields the descending stable sort |
| Lists.SortDescSorted | app/ytdlp_handler.py:78 | the sort result is in descending key order |
| Lists.SortDescPermutes | app/ytdlp_handler.py:78 | the sort result is a permutation of its input |
| Lists.SortDescStable | app/ytdlp_handler.py:78 | items with equal keys keep their relative order |
| Lists.SortDescHead | app/ytdlp_handler.py:93-94 | the first sorted item has the largest key and is the earliest input item with that key |
| YtDlpHandler.GetAvailableFormats | app/ytdlp_handler.py:48-118 | the method with its loops returns the format listing the lemmas below describe |
| YtDlpHandler.FormatsFailure | app/ytdlp_handler.py:56-118 | the listing fails exactly when the probe fails or one of the two sorts raises, and a probe failure is returned as its message, never raised |
| YtDlpHandler.FormatsPairing | app/ytdlp_handler.py:78-113 | there is one entry per video-only format, ordered by height descending with ties in probe order; each id is `<video id>+<best audio>` and each resolution is `<height>p` |
| YtDlpHandler.BestAudioIsBest | app/ytdlp_handler.py:93-94 | the best audio is `bestaudio` when no audio-only format exists; otherwise it is the first audio-only format with the highest bitrate |
| Text.AsciiUpper | app/ytdlp_handler.py:110 | each lower-case ASCII letter becomes upper case and every other character is unchanged |
| Progress.MatchAt | app/ytdlp_handler.py:121 | a match starting at a given position is returned when one exists, and no other match there precedes it in the regex engine's order |
| Progress.MatchAtFirst | app/ytdlp_handler.py:121 | the span built from the forced token and the first size groups is a match, and no other match at the same start precedes it |
| Progress.NoMatchAt | app/ytdlp_handler.py:121 | without a digit run followed by `% of`, or without size groups after it, nothing matches at that start |
| Progress.SearchFrom | app/ytdlp_handler.py:121 | the same guarantee for the leftmost match at or after a position |
| Progress.FindMatch | app/ytdlp_handler.py:121 | `re.search` succeeds exactly when some match exists, and returns the first match in the engine's order |
| Progress.SizeFrom | app/ytdlp_handler.py:121 | the lazy size group takes the shortest text followed by a space, `at`, a space and a valid rest |
| Progress.SizeEndFrom | app/ytdlp_handler.py:121 | the size end found is the earliest one that leads to a full match |
| Progress.AtAfter | app/ytdlp_handler.py:121 | the `at` keyword after the size is found at the first feasible position |
| Progress.SpeedStartFrom | app/ytdlp_handler.py:121 | the speed group starts at the first feasible position after `at` and its spaces |
| Progress.SpeedEndFrom | app/ytdlp_handler.py:121 | the lazy speed group ends at the earliest position that leads to a full match |
| Progress.EtaAfter | app/ytdlp_handler.py:121 | the `ETA` keyword and its greedy rest-of-line group are found in engine order |
| Progress.EtaStartFrom | app/ytdlp_handler.py:121 | the ETA group starts at the first feasible position after the keyword |
| Progress.ForcedPositions | app/ytdlp_handler.py:121 | in any match at a position, the percent token is forced: it is the whole digit-and-dot run after the spaces |
| Progress.FloatOfToken | app/ytdlp_handler.py:123 | a digits-and-dots token converts exactly when it has at most one dot and some digit, and the value is never negative |
| Progress.FloatOfNumeral | app/ytdlp_handler.py:123 | a whole-number token converts to its own value |
| Progress.FractionValue | app/ytdlp_handler.py:123 | the digits after a decimal point are worth at least 0 and less than 1 |
| Progress.FloatOfWhole | app/ytdlp_handler.py:123 | a token of digits alone converts to the integer its digits spell |
| Progress.FloatOfDecimal | app/ytdlp_handler.py:123 | a token `<w>.<f>` converts, and moving its decimal point `|f|` places to the right gives the integer that the digits of `w` and `f` spell together |
| Progress.ShiftFraction | app/ytdlp_handler.py:123 | moving the point of `<w>.<f>` past the digits of `f` one at a time turns the whole part plus the fraction into the integer spelled by `w` followed by `f` |
| Progress.ParseProgress | app/ytdlp_handler.py:120-124 | the result is `None` exactly when no match exists; otherwise it is the conversion error when `float` rejects the token, or exactly `float(token)` as `FloatOfToken` gives it, with `of <size> at <speed> ETA <eta>` from the first match |
| ProgressLine.LineMatches | app/ytdlp_handler.py:121 | a line laid out as yt-dlp prints progress matches the pattern at the intended group positions |
| ProgressLine.LineMatchIsFirst | app/ytdlp_handler.py:121 | on such a line no other match comes before the intended one, so the lazy groups do not cut the fields short |
| ProgressLine.ParseLine | app/ytdlp_handler.py:120-124 | parsing such a line gives back its percent and the text `of <size> at <speed> ETA <eta>`, with any `~` dropped, or raises when the token is not a number |
| ProgressLine.ParseWholePercent | app/ytdlp_handler.py:120-124 | a whole-number percent always parses back to itself |
| LiveHandler.CheckLiveStatus | app/app/live_handler.py:9-35 | a failed probe gives its error message; otherwise `is_live` and `was_live` default to false, the title and uploader default to `''`, the start time is the release timestamp, and the description is empty exactly when the probe has none |
| LiveHandler.BuildLiveCommand | app/app/live_handler.py:38-66 | the list built through the if/elif chain equals the live command that the lemmas below describe |
| LiveHandler.LiveCommandHead | app/app/live_handler.py:40-51 | the live command begins like the default one, but with the template `%(title)s_%(upload_date)s_%(id)s.%(ext)s` |
| LiveHandler.WaitIsDefault | app/app/live_handler.py:54-56 | mode `wait`, or no mode at all, adds `--live-from-start --wait-for-video 30` |
| LiveHandler.NowMode | app/app/live_handler.py:57-58 | mode `now` adds only `--no-wait-for-video`, followed by the selected format if there is one |
| LiveHandler.SafeMode | app/app/live_handler.py:59-64 | mode `safe` adds `-f best[height<=720] --live-from-start` and never the selected format |
| LiveHandler.SelectedFormatLast | app/app/live_handler.py:63-64 | in every mode except `safe`, a truthy selected format ends the command as `-f <format>` |
| LiveHandler.UnknownMode | app/app/live_handler.py:54-64 | an unrecognised mode adds no mode arguments |
| LiveHandler.LiveCommandIgnoresCookiesAndCustomArgs | app/app/live_handler.py:46-66 | the live command does not depend on the cookie browser or on the custom arguments |
| LiveHandler.Annotated | app/app/live_handler.py:80-84 | the count and order are preserved; exactly the formats whose resolution starts with `1080`, `1440` or `2160` get the warning appended to their note, and nothing else changes |
| LiveHandler.AnnotateForLive | app/app/live_handler.py:77-86 | the loop that mutates each note produces that annotated list |
| LiveHandler.LiveFormatsAsWrittenAlwaysRaises | app/app/live_handler.py:72-73 | as written, `get_live_formats` never returns: the two-argument call raises |
| LiveHandler.LiveFormatsAnnotates | app/app/live_handler.py:75-88 | with the call corrected, a failure passes through unchanged and a success keeps each id, warning exactly on the unstable resolutions |
| PlaylistHandler.KeptCount | app/playlist_handler.py:27-29 | the number of entries kept is the smaller of the number given and the limit, and none for a limit of zero or below |
| PlaylistHandler.SummarizeEntries | app/playlist_handler.py:25-39 | the loop with `break` keeps the first entries up to the limit, in source order, each with its defaults applied |
| PlaylistHandler.PlaylistInfoOf | app/playlist_handler.py:8-51 | a failed probe gives its message; otherwise `entry_count` is the number kept, `total_entries` is `playlist_count` or else that count, and the title and uploader take their defaults |
| PlaylistHandler.GetPlaylistInfo | app/playlist_handler.py:20-51 | the method returns that record |
| PlaylistHandler.EntryDefaults | app/playlist_handler.py:32-33 | a missing title becomes `動画 <i+1>`, and a missing url falls back to `webpage_url` and then to `''` |
| PlaylistHandler.DefaultLimit | app/playlist_handler.py:8 | with the default limit, at most 100 entries are kept |
| PlaylistHandler.FilterEntriesKeepsSelected | app/playlist_handler.py:54-59 | no selection returns the entries unchanged; otherwise each entry keeps its multiplicity if its id is selected and is dropped if not |
| PlaylistHandler.FilterEntriesInOrder | app/playlist_handler.py:54-59 | a non-empty selection returns exactly the entries at the selected positions, in playlist order |
| PlaylistHandler.KeepAtPositions | app/playlist_handler.py:58 | keeping the entries whose id is selected gives the entries at the ascending selected positions |
| PlaylistHandler.SelectedPositions | app/playlist_handler.py:74 | the positions are 1-based, strictly increasing, and each one points at a selected entry |
| PlaylistHandler.SelectedPositionsComplete | app/playlist_handler.py:74 | every selected entry's position is listed |
| PlaylistHandler.PlaylistDownloadOptions | app/playlist_handler.py:62-76 | the options are copied unchanged; `playlist_items` is added exactly in `selected` mode with a non-empty selection, and it is the comma-joined positions |
| ContentAnalyzer.FollowsIffReach | app/content_analyzer.py:25 | the hand-written matcher at a position agrees with the pattern semantics (literal pieces separated by single-line gaps) |
| ContentAnalyzer.SearchAnyIffSearches | app/content_analyzer.py:25 | scanning from a position finds a match exactly when one starts at or after it |
| ContentAnalyzer.SearchAnyDecides | app/content_analyzer.py:25 | the unanchored search answers true exactly when the pattern occurs somewhere in the URL |
| ContentAnalyzer.FirstMatching | app/content_analyzer.py:24-26 | the early-return loop answers true exactly when some pattern of the list matches |
| ContentAnalyzer.DetectContentType | app/content_analyzer.py:22-32 | the two loops return the classification that `ContentTypePriority` describes |
| ContentAnalyzer.ContentTypePriority | app/content_analyzer.py:22-32 | the result is `live` exactly when a live pattern matches, `playlist` exactly when no live pattern matches and a playlist pattern does, and `single` otherwise |
| ContentAnalyzer.SearchesUnanchored | app/content_analyzer.py:25 | a match survives any text added before or after the URL |
| ContentAnalyzer.SearchesIgnoresCase | app/content_analyzer.py:25 | a match survives upper-casing the URL |
| ContentAnalyzer.WatchUrlWithTime | app/content_analyzer.py:10 | a `youtube.com/watch?…v=…&…t=…` URL matches the second live pattern |
| ContentAnalyzer.WatchUrlWithList | app/content_analyzer.py:16 | the same URL with `list=` in it matches the second playlist pattern |
| ContentAnalyzer.WatchWithTimeAndListIsLive | app/content_analyzer.py:8-32 | such a URL matches a playlist pattern, yet it is classified `live` because live patterns take priority |
| ContentAnalyzer.SingleAnalysisAlwaysFails | app/content_analyzer.py:55-61 | as written, every `single` analysis reports failure with the argument-count error |
| ContentAnalyzer.AnalyzeUrl | app/content_analyzer.py:35-63 | the result always carries the url, the type and the time stamp; live results always succeed, and playlist and single results succeed exactly when their probe does |
| DownloadManager.CountStatus | app/download_manager.py:144 | the count of items with a status is at most the queue length |
| DownloadManager.CountStatusCounts | app/download_manager.py:144 | on a consistent queue the count is the number of queued items with that status |
| DownloadManager.CountStatusDistinct | app/download_manager.py:144 | over an insertion order without repeats, the count is the size of the set of listed items with that status |
| DownloadManager.DispatchesUnique | app/download_manager.py:139-157 | the dispatch rule leaves no choice: at most one answer fits it |
| DownloadManager.FirstToStart | app/download_manager.py:144-152 | the loop returns nothing when the ceiling is reached; otherwise it returns the first `waiting` item in insertion order, or nothing |
| DownloadManager.NewEntryShape | app/download_manager.py:28-60 | a new entry starts `waiting` with progress 0 and empty details; it becomes `waiting_for_live` with the waiting text exactly when it is live, not live now, and in mode `wait` |
| DownloadManager.BuildCommandFor | app/download_manager.py:76-80 | live items get the live command and every other item the default one |
| DownloadManager.FinishedClassifies | app/download_manager.py:114-127 | exit code 0 gives `completed` at 100; otherwise a cancelled item stays cancelled with its key, and any other item becomes `error` with the error detail |
| DownloadManager.FinishedNeverCancelled | app/download_manager.py:114-127 | an item that was not cancelled ends `completed` or `error` |
| DownloadManager.ErrorDetailIsLastLine | app/download_manager.py:123-126 | empty stripped stderr gives `Unknown error`; otherwise the detail is the last line of the stripped text |
| DownloadManager.ReadLinesRaisesFirst | app/download_manager.py:98-106 | reading stops with an error exactly when some line raises, and the error is that of the first such line |
| DownloadManager.ReadLinesStops | app/download_manager.py:98-106 | after a raising line, later lines change nothing |
| DownloadManager.RunEnds | app/download_manager.py:62-137 | a run ends `completed` exactly when the process started, no line raised and it exited 0; otherwise it ends `error` with the matching detail |
| DownloadManager.RemovableListed | app/download_manager.py:174-177 | an id is collected for clearing exactly when it is queued and its status is not busy |
| DownloadManager.ClearedKeys | app/download_manager.py:171-179 | after clearing, exactly the `downloading`, `waiting` and `waiting_for_live` items remain |
| DownloadManager.Manager.constructor | app/download_manager.py:14-16 | the queue and the registry start empty |
| DownloadManager.Manager.StartNext | app/download_manager.py:139-157 | the item dispatched follows the ceiling and first-`waiting` rule |
| DownloadManager.Manager.HandleLiveDownload | app/download_manager.py:46-60 | a queued item records the probe and may turn `waiting_for_live`; an unknown id changes nothing |
| DownloadManager.Manager.Enqueue | app/download_manager.py:21-41 | one new entry is appended at the end of the insertion order, and every other entry is untouched |
| DownloadManager.Manager.EnqueueAll | app/download_manager.py:20-41 | one entry per URL, in URL order, each with its classification; existing entries are untouched |
| DownloadManager.Manager.AddToQueue | app/download_manager.py:18-44 | the URLs are enqueued and then the next item is dispatched by the rule |
| DownloadManager.Manager.BeginRun | app/download_manager.py:64-80 | a missing or `waiting_for_live` item changes nothing; any other item becomes `downloading` and gets its command |
| DownloadManager.Manager.Launched | app/download_manager.py:94-95 | the process is registered under the id |
| DownloadManager.Manager.ApplyLine | app/download_manager.py:99-106 | a parsed line updates the item's progress and details, and a raising line reports its error |
| DownloadManager.Manager.ReadOutput | app/download_manager.py:98-106 | the loop over stdout leaves the item as the reading function describes |
| DownloadManager.Manager.Release | app/download_manager.py:133-137 | the registry entry is removed and the next item is dispatched |
| DownloadManager.Manager.Finish | app/download_manager.py:111-137 | a still-queued item is classified by its exit and a removed item is not written; if no item was cancelled before, none is after |
| DownloadManager.Manager.Fail | app/download_manager.py:129-137 | a still-queued item becomes `error` with the exception text |
| DownloadManager.Manager.RunStarted | app/download_manager.py:82-137 | a started run reads the output and then classifies or fails |
| DownloadManager.Manager.Consume | app/download_manager.py:98-137 | the output is read and then the outcome is concluded |
| DownloadManager.Manager.Conclude | app/download_manager.py:110-137 | a raising read fails the item; otherwise the item is classified by its exit |
| DownloadManager.Manager.RunDownload | app/download_manager.py:62-137 | the whole run: a missing or `waiting_for_live` item is left as it is; otherwise the item ends as `RunEnds` says and its registry entry is gone |
| DownloadManager.Manager.Pop | app/download_manager.py:169 | the id leaves both the table and the order |
| DownloadManager.Manager.RemoveItem | app/download_manager.py:159-169 | a downloading item's process is popped and terminated; the entry is deleted whatever its status; an unknown id changes nothing |
| DownloadManager.Manager.PopAll | app/download_manager.py:178-179 | exactly the listed ids are removed, and the order stays the order of the survivors |
| DownloadManager.Manager.ClearCompleted | app/download_manager.py:171-179 | exactly the non-busy entries are removed, and every remaining entry is unchanged |
| LegacyMain.BuildLegacyCommand | main.py:161-177 | the list built step by step equals the legacy command |
| LegacyMain.LegacyAudioOnlyWins | main.py:168-169 | audio-only takes precedence and adds the audio arguments |
| LegacyMain.LegacyVideoFormat | main.py:168-171 | otherwise `-f <videoFormat>` is added exactly when the video format is truthy |
| LegacyMain.LegacyCommandHead | main.py:161-165 | the legacy head equals the package head |
| LegacyMain.LegacyCommandTail | main.py:177 | the custom arguments end the command, in order |
| LegacyMain.LegacyCookieRule | main.py:173-176 | the cookie pair follows the same rule as in the package |
| LegacyMain.LegacyAgreesWithPackage | main.py:161-177 | with no selected format and no video format in play, both builders produce the same command |
| LegacyMain.LegacyErrorDetailDiffers | main.py:199 | the two versions' error details differ only on empty stderr: the legacy detail is `''` where the package says `Unknown error` |
| LegacyMain.LegacyFinishedClassifies | main.py:192-199 | exit 0 gives `completed` at 100; a cancelled item stays cancelled; otherwise the item becomes `error` with the last stderr line |
| LegacyMain.LegacyRunEnds | main.py:154-209 | the legacy run ends as the package run does, with the legacy error detail |
| LegacyMain.ClearedToDownloading | main.py:312-314 | clearing the queue keeps exactly the `downloading` entries |
| LegacyMain.LegacyApp.constructor | main.py:27-31 | the queue starts empty and the ceiling starts at 1 |
| LegacyMain.LegacyApp.StartNext | main.py:211-217 | dispatch follows the same rule as the package against the global ceiling |
| LegacyMain.LegacyApp.SaveSettings | main.py:276-282 | the ceiling becomes `concurrentDownloads`, by default 1, and the next item is dispatched |
| LegacyMain.LegacyApp.Enqueue | main.py:266-271 | one `waiting` entry is appended, with no classification |
| LegacyMain.LegacyApp.EnqueueAll | main.py:265-271 | one entry per URL, in URL order; existing entries are untouched |
| LegacyMain.LegacyApp.AddToQueue | main.py:263-273 | the URLs are enqueued and the next item is dispatched |
| LegacyMain.LegacyApp.BeginRun | main.py:155-177 | a missing item changes nothing; any other item becomes `downloading` and gets the legacy command |
| LegacyMain.LegacyApp.Launched | main.py:182-183 | the process is registered under the id |
| LegacyMain.LegacyApp.ApplyLine | main.py:185-189 | a parsed line updates progress and details |
| LegacyMain.LegacyApp.ReadOutput | main.py:185-189 | the loop over stdout leaves the item as the reading function describes |
| LegacyMain.LegacyApp.Release | main.py:205-209 | the registry entry is removed and the next item is dispatched |
| LegacyMain.LegacyApp.Finish | main.py:192-209 | a still-queued item is classified by its exit |
| LegacyMain.LegacyApp.Fail | main.py:201-209 | a still-queued item becomes `error` with the exception text |
| LegacyMain.LegacyApp.Conclude | main.py:192-209 | a raising read fails the item; otherwise the item is classified by its exit |
| LegacyMain.LegacyApp.RunStarted | main.py:179-209 | a started run reads the output and then concludes |
| LegacyMain.LegacyApp.Consume | main.py:185-209 | the output is read and then the outcome is concluded |
| LegacyMain.LegacyApp.RunDownload | main.py:154-209 | the whole legacy run, with `LegacyRunEnds` as its result |
| LegacyMain.LegacyApp.Pop | main.py:305 | the id leaves both the table and the order |
| LegacyMain.LegacyApp.Remove | main.py:297-305 | a downloading item is terminated and cancelled, and the entry is deleted whatever its status |
| LegacyMain.LegacyApp.RemoveItem | main.py:295-307 | the removal is followed by a dispatch |
| LegacyMain.LegacyApp.PopAll | main.py:313-314 | exactly the listed ids are removed |
| LegacyMain.LegacyApp.ClearQueue | main.py:310-315 | every entry that is not `downloading` is removed, including `waiting` ones |
| DisplayUtils.JsRem | static/js/utils.js:5-6 | JavaScript's `%`: the remainder is smaller than the divisor in size, differs from the dividend by a multiple of the divisor, agrees with Dafny's for non-negative numbers and is never positive for non-positive ones |
| DisplayUtils.FormatDuration | static/js/utils.js:2-12 | the result is `''` exactly for a missing or zero duration |
| DisplayUtils.ClockSplits | static/js/utils.js:4-6 | hours, minutes below 60 and seconds below 60 add back up to the input |
| DisplayUtils.PadTwoSmall | static/js/utils.js:9 | a number below 60 pads to two digits that read back as itself |
| DisplayUtils.LongReadsBack | static/js/utils.js:8-9 | an hour or more prints as `H:MM:SS`, which reads back as the seconds |
| DisplayUtils.ShortReadsBack | static/js/utils.js:11 | under an hour prints as `M:SS`, which reads back as the seconds |
| DisplayUtils.DurationReadsBack | static/js/utils.js:2-12 | every positive duration prints as a clock that reads back to itself |
| DisplayUtils.DurationShape | static/js/utils.js:8-11 | long durations have two colons; short ones have a single colon before two seconds digits |
| DisplayUtils.NegativeDuration | static/js/utils.js:4-11 | a negative duration gives negative hours and does not read back |
| DisplayUtils.Slice | static/js/utils.js:24-26 | `slice` clamps both ends to the length |
| DisplayUtils.FormatUploadDate | static/js/utils.js:21-31 | the result is `''` exactly for a missing or empty date |
| DisplayUtils.UploadDateLayout | static/js/utils.js:24-27 | the result is the first at most eight characters with a slash after the year and after the month, so `YYYYMMDD` becomes `YYYY/MM/DD` |
| DisplayUtils.UploadDateRoundTrip | static/js/utils.js:21-27 | removing the slashes from a slash-free date gives back its first eight characters |

## Left out

- Processes, sockets, emits, threads and the lock are left out. Each locked
  block is one atomic method.
- The `socketio.start_background_task` handoff becomes the returned id of the
  item to start.
- The progress update at app/download_manager.py:101 runs outside the lock.
  The model applies it as a step of the run.
- The source can double-dispatch under real interleavings; the model does not
  show this.
- The following are model inputs: `uuid.uuid4`, `datetime.now`, the `yt_dlp`
  probes (`extract_info`), and the process outcome (stdout lines, exit code,
  stderr text, or an exception at launch).
- The probe option dictionaries are left out. These are `quiet`,
  `extract_flat`, `playlistend`, `noplaylist` and `cookiesfrombrowser`.
- In the probe records, a dictionary key that is present with `None` is
  treated as absent. The `'abr': None` case that breaks the audio sort is kept.
- LegacyMain.LegacyApp.SaveSettings and DownloadManager.Manager.StartNext
  take the ceiling as an integer, and a missing `concurrentDownloads` becomes
  1. The model has no ceiling that is present but `null`. The settings page
  sends `parseInt` of the field, which is `NaN` for an empty field, and JSON
  carries that as `null`. Then `.get('concurrentDownloads', 1)` returns `None`
  (main.py:279, app/download_manager.py:142), and the comparison
  `downloading_count >= None` raises `TypeError` (main.py:214,
  app/download_manager.py:145). So the source dispatches nothing, where the
  model dispatches.
- YtDlpHandler.FormatsFailure gives every raising sort the same error text,
  `NoneKeyError`, which names `'NoneType'` and `'int'`. Python's `str(e)`
  (app/ytdlp_handler.py:117-118) names the actual operand types in their
  actual order. For the audio sort on `abr` that is `'float'`, and for two
  `None` keys it is `'NoneType'` and `'NoneType'`. Likewise `FormatInfo.fps`
  is an integer. yt-dlp can report a fractional fps, which
  app/ytdlp_handler.py:103 prints as, e.g., `@29.97fps`.
- `shlex.split` is left out: the custom arguments arrive already tokenised.
  So the model has no outcome for custom arguments with an unbalanced quote.
  There `shlex.split` raises `ValueError` while the command is built
  (app/ytdlp_handler.py:140, reached from app/download_manager.py:77-80;
  main.py:173). That is before the `try` (app/download_manager.py:83,
  main.py:180). The item has already been set to `downloading`
  (app/download_manager.py:73, main.py:158), and no `finally` runs. So it
  stays `downloading` with no process, and with the default ceiling of one
  download nothing else is started.
- Text.AsciiUpper maps ASCII letters only. Python's `str.upper()` also maps
  other letters, e.g. `é` to `É` and `ß` to `SS`. Format extensions are
  ASCII in practice.
- Progress.FloatOfToken and the pattern's `\d` accept the ASCII digits only.
  Python's `\d` and `float()` also accept other Unicode decimal digits
  (app/ytdlp_handler.py:121-123, main.py:149-151).
- DisplayUtils.Slice counts characters (code points). JavaScript's `slice`
  counts UTF-16 code units, which differ for characters outside the Basic
  Multilingual Plane (static/js/utils.js:24-26). Upload dates are ASCII
  digits.
- `download_yt_dlp`, `get_yt_dlp_version` and `setup_directories` are left
  out.
- Settings file I/O is left out. So are the Flask routes, the SocketIO
  handlers and the `translations` table.
- Of the JavaScript helpers, `formatFileSize`, `sanitizeHtml` and
  `copyToClipboard` are left out.
- `formatUploadDate` catches an error for a non-string argument. The model
  takes only strings, so that path is left out.
- `BASE_DIR` depends on where the program is installed. The model fixes it as
  `C:\GUI-ytdlp`.
- `live_handler.py` lives under `app/app/`, but `app/download_manager.py:8`
  and `app/content_analyzer.py:48` import it as a sibling module. The model
  assumes the import resolves.
- The early returns at app/download_manager.py:67 and :71 are outside the
  `try`. The `finally` cleanup does not run after them, and the model follows
  the code.
- A `savePath` of `''` is kept as `''`, because `dict.get` returns the present
  value.
- An item removed mid-run leaves its process running until it exits.
- A line that makes `parse_progress` raise ends the run without terminating
  the process.
- Durations that are not integers are left out, because the model takes
  integer seconds.
- Progress.FloatOfToken gives the exact decimal value of the percent token,
  not the nearest binary double.
- DownloadManager.Manager.constructor: the manager holds the parser and the
  classifier as constant fields. These are equal to `ParseProgress` and
  `ContentTypeOf`, which keeps the proofs small.
- ContentAnalyzer.SingleAnalysisAlwaysFails: the text of the `TypeError`
  message is approximated by a fixed constant.
- YtDlpHandler.FormatsPairing does not state the `note` label as a whole
  (upper-cased extension, fps, size and note). The label is defined, and only
  its size part has a contract (`MegabyteTextClose`).
- LiveHandler.CheckLiveStatus bounds the description and states when it is
  empty. `ShortDescription` states its full content.

## Findings

| source | as written | input that shows it | evidently intended | confidence | as-written member | corrected member |
|---|---|---|---|---|---|---|
| app/app/live_handler.py:73 | `get_live_formats` calls `get_available_formats(url, cookie_browser)`, but app/ytdlp_handler.py:48 declares one parameter, so the call raises `TypeError` before any probe | any url, e.g. `https://www.youtube.com/live/abc` with `cookie_browser='none'` | the probe's format listing, with the unstable resolutions annotated | not executed | LiveHandler.LiveFormatsAsWrittenAlwaysRaises | LiveHandler.LiveFormatsAnnotates |
| app/content_analyzer.py:57 | the `single` branch of `analyze_url` makes the same two-argument call; the `except` turns it into `success: False` with the `TypeError` text | `https://example.com/video` (matches no pattern, so it is `single`) | the format listing merged into the result, with failure only when the probe fails | not executed | ContentAnalyzer.SingleAnalysisAlwaysFails | ContentAnalyzer.AnalyzeUrl |
