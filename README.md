# brytools download pipeline, modelled in Dafny

This project models the server-side core of brytools. brytools is a small media
workstation: a Next.js app queues yt-dlp downloads, post-processes them, lets a
user browse and stream the results, and sends media to a watch folder that a
Python Whisper worker transcribes. The model covers these parts:

- **Caption cleaner** (`SrtCleaner`). It parses SubRip blocks, collapses
  rolling captions in one pass, and renders `[HH:MM:SS] text` lines.
- **Job store** (`Db`). The `downloads` table is a `JobStore` class holding a
  map from id to row plus an insertion order that stands in for `created_at`.
  The five queries (`Queue`, `History`, `HistoryCount`, `ActiveCount`,
  `NextQueued`) are functions over a snapshot of it, and `getDownload` is the
  store's `Get`.
- **Runner** (`Downloader`, with `Ytdlp` and `ProgressLines`). This covers:
  - the yt-dlp argument vectors;
  - the progress-line parser over a backtracking regular-expression engine;
  - the chunk-to-line splitter and the line handler;
  - the scheduler capped at two `downloading` jobs;
  - the process registry;
  - the exit, error and cancel handlers, and post-processing.
  Processes, signals, ffmpeg and the clock are events and oracle parameters.
- **Dump routes** (`DumpCancel`, `DumpSubmit`): the cancel decision by status,
  and submit's validation, check replies and queueing.
- **File browser** (`FilesDetail`, `FilesList`, `FilesServe`, `SendToScribe`):
  - classification, ordering and preview choice;
  - the prefix path guard, and delete-then-prune;
  - the folder listing with search and sort;
  - MIME lookup and byte ranges;
  - the collision-free copy into the transcription watch folder.
- **Transcription** (`TranscribeFiles`, `BatchTranscribe`): the merged listing
  of the watch folder, and the Python worker's pure rules. These are timestamp
  formatting, versioned names, cancel markers, model choice and watcher
  admission.
- **Telemetry** (`Heartbeat`, `Services`, `Studio`):
  - the 120-sample network buffer;
  - the launchctl/funnel status classifiers and the service actions;
  - the `===KEY===` section splitter of the Mac Studio report.

Shared helpers model the JavaScript and Python built-ins the code relies on:
- `Strings`: ASCII case folding, `trim`, `split`/`join`, `parseInt`,
  `Math.round` and decimal printing.
- `Regex`: a backtracking matcher for the regular-expression subset the code
  uses.
- `Paths`: Node's `extname`, `basename` and `dirname`. Python's `suffix` is
  `BatchTranscribe.PySuffix`; Python's `stem` belongs to the worker's file
  handling, which is not part of this model.
- `Sorting`: a stable sort by key.
- `FsTree`: a directory tree.

## Model

| member | source | states |
|---|---|---|
| SrtCleaner.ClockMatch | lib/srt-cleaner.ts:43 | `(\d{2}):(\d{2}):(\d{2})` matches at a position exactly when eight characters `DD:DD:DD` stand there, and its three groups are the digit pairs |
| SrtCleaner.FirstClock | lib/srt-cleaner.ts:43 | the first position at or after `from` holding `DD:DD:DD`, none earlier, and nothing when no position holds one |
| SrtCleaner.ClockSearch | lib/srt-cleaner.ts:43-46 | `match` on the time line finds the leftmost clock and captures its three pairs; it fails when the line has none |
| SrtCleaner.ClockFields | lib/srt-cleaner.ts:46 | the three captured pairs joined by ':' are the eight characters matched |
| SrtCleaner.MatchTimestamp | lib/srt-cleaner.ts:43-46 | the timestamp is `HH:MM:SS` of the leftmost clock on the line, or nothing |
| SrtCleaner.ParseSrt | lib/srt-cleaner.ts:31-55 | the loop over blocks yields exactly the parsed entries of the trimmed text split on blank-line separators, in order |
| SrtCleaner.ParseBlockWellFormed | lib/srt-cleaner.ts:36-51 | an accepted block gives an 8-character clock timestamp and a non-empty, trimmed text without newlines |
| SrtCleaner.CueTextShape | lib/srt-cleaner.ts:47 | cue text is trimmed, and has no newline when its lines have none |
| SrtCleaner.ParsedEntriesWellFormed | lib/srt-cleaner.ts:31-55 | every parsed entry is well formed |
| SrtCleaner.ParseRenderedBlock | lib/srt-cleaner.ts:36-51 | a block "index, start plus rest of the timing line, caption" parses to the entry (start, caption) when the caption is clean text |
| SrtCleaner.DeduplicateRolling | lib/srt-cleaner.ts:57-85 | the loop with `lastText` computes `Dedup`: drop equal keys, overwrite the last entry when its key is extended, drop a key that the last one extends, otherwise append |
| SrtCleaner.DedupCollapsed | lib/srt-cleaner.ts:63-82 | no kept entry has an empty key, and consecutive kept keys are prefix-incomparable |
| SrtCleaner.DedupKeepsCollapsed | lib/srt-cleaner.ts:63-82 | a collapsed list is returned unchanged |
| SrtCleaner.DedupIdempotent | lib/srt-cleaner.ts:57-85 | deduplicating the output again returns it unchanged |
| SrtCleaner.DedupSubsequence | lib/srt-cleaner.ts:57-85 | the output is an order-preserving subsequence of the input, so it is never longer |
| SrtCleaner.DedupKeepsFirst | lib/srt-cleaner.ts:58-61 | a non-empty input with a non-empty first key keeps something, and the first kept key extends the first input key |
| SrtCleaner.DedupRolling | lib/srt-cleaner.ts:70-80 | when the second cue extends the first, it replaces it with its own timestamp, and unrelated later cues are appended |
| SrtCleaner.DedupExample | lib/srt-cleaner.ts:72 | hello@1, hello world@2, world@3, goodbye@5 gives hello world@2, world@3, goodbye@5 |
| SrtCleaner.KeptWellFormed | lib/srt-cleaner.ts:57-85 | the kept entries of well-formed entries are well formed |
| SrtCleaner.RenderAll | lib/srt-cleaner.ts:24-26 | one `[timestamp] text` line per entry, in order |
| SrtCleaner.RenderedPlain | lib/srt-cleaner.ts:24-26 | rendering well-formed entries gives lines without newlines |
| SrtCleaner.WriteOutput | lib/srt-cleaner.ts:17-28 | the pushed lines joined by '\n' are the "Source:" header (only for a non-empty URL) and the rendered entries |
| SrtCleaner.CleanSrt | lib/srt-cleaner.ts:13-29 | the result is the cleaned text of the parsed, deduplicated entries |
| SrtCleaner.CleanedLines | lib/srt-cleaner.ts:17-28 | cutting the output at '\n' gives back the header and one line per kept entry, with no trailing newline |
| Db.OrNullText | lib/db.ts:65 | `x \|\| null` on text: null exactly for a missing or empty value, otherwise the value |
| Db.OrNullNumber | lib/db.ts:65 | `x \|\| null` on a number: null exactly for a missing value or 0 |
| Db.Apply | lib/db.ts:68-75 | the row keeps its id, and every column that no field names keeps its value |
| Db.ApplyLast | lib/db.ts:72-74 | a named column takes the value of the last field naming it |
| Db.ApplyUnnamed | lib/db.ts:70-74 | a column no field names is unchanged |
| Db.AssignOverwrites | lib/db.ts:72-74 | a second assignment to a column overrides the first |
| Db.Page | lib/db.ts:89 | `LIMIT ? OFFSET ?`: skip `offset` rows (clamped) and keep at most `limit` (negative is unbounded) |
| Db.PagesCover | lib/db.ts:87-91 | one page followed by everything after it is everything from the offset |
| Db.QueueExact | lib/db.ts:81-85 | `getQueue` returns exactly the stored queued, downloading and processing rows, in insertion order |
| Db.HistoryKeys | lib/db.ts:87-91 | the history keys are exactly the terminal rows' (completed_at, position) pairs, each once |
| Db.HistoryStrict | lib/db.ts:89 | history is strictly ordered by completed_at descending (null last), then by insertion descending |
| Db.HistoryCountPaged | lib/db.ts:93-98 | `getHistoryCount` is the size of the unpaged history, and a page is never larger |
| Db.ActiveCountReplace | lib/db.ts:104-109 | replacing one row changes the active count by its change into or out of 'downloading' only |
| Db.NextQueued | lib/db.ts:111-115 | a stored queued row with nothing queued before it, and nothing exactly when no row is queued |
| Db.NextQueuedFirst | lib/db.ts:111-115 | `getNextQueued` is the head of the queued ids in insertion order, which are distinct stored queued rows |
| Db.QueuedIdsTakeFirst | lib/db.ts:111-115 | once the head job leaves 'queued', the queued ids are the old ones minus the head |
| Db.SameStatusKeepsQueue | lib/db.ts:104-115 | an update that keeps the status keeps the active count and the queued ids |
| Db.JobStore.Get | lib/db.ts:77-79 | a row exactly when the id is stored, and then that row |
| Db.JobStore.Insert | lib/db.ts:60-66 | a fresh id adds the 'queued' row with falsy values stored as null at the end of the order; a taken id changes nothing |
| Db.JobStore.Update | lib/db.ts:68-75 | with at least one non-id field the row becomes the fields applied to it; other rows and the order are unchanged |
| Db.JobStore.Delete | lib/db.ts:100-102 | the row with that id is removed and the table stays valid |
| Ytdlp.YtdlpArgsShape | lib/downloader.ts:18-63 | every vector starts with the three base flags and ends with the URL; text mode skips the download, wav extracts WAV audio, full merges into mp4, and any other mode is the base flags plus the URL |
| Ytdlp.Fraction | lib/downloader.ts:67 | the fraction digits that `parseFloat` reads after the point are all digits |
| Ytdlp.ParseFloat | lib/downloader.ts:67 | `parseFloat` of a captured percentage is never negative when it is a number |
| Ytdlp.DecimalReal | lib/downloader.ts:67 | the value of whole and fraction digits is never negative |
| Ytdlp.ParseProgressNeedsTag | lib/downloader.ts:14-80 | a line yields progress only if it contains `[download]` |
| Ytdlp.ParseProgressOrder | lib/downloader.ts:65-80 | the three patterns are tried in order: an ETA is reported exactly when the first matches, speed without ETA exactly when only the second does, a bare percentage exactly when only the fragment pattern does, and nothing when none does |
| Ytdlp.FragmentPercentOf | lib/downloader.ts:72-77 | for "n of m" the percentage is `Math.round(n / m * 100)`, and not a finite number when m is 0 |
| Ytdlp.RoundPercentBounds | lib/downloader.ts:76 | with 0 < m and n <= m the rounded percentage lies in 0..100 |
| Ytdlp.ParseFloatDigits | lib/downloader.ts:67 | `parseFloat` of a digit run followed by nothing or a '.' is the decimal value of the leading digits and fraction |
| Ytdlp.ParseFloatWhole | lib/downloader.ts:67 | `parseFloat` of a printed natural number gives that number back |
| Ytdlp.ParseFloatFraction | lib/downloader.ts:67 | `parseFloat` of "n.ds" is n plus ds over the matching power of ten |
| Ytdlp.Feed | lib/downloader.ts:266-281 | after a chunk, neither the complete lines nor the new carry contain a newline |
| Ytdlp.FeedRebuilds | lib/downloader.ts:268-270 | the lines handed out and the new carry, joined by '\n', are exactly the old carry followed by the chunk: nothing is lost or invented |
| Ytdlp.FeedAll | lib/downloader.ts:266-281 | feeding any number of chunks keeps every line and the carry free of newlines |
| Ytdlp.FeedAllRebuilds | lib/downloader.ts:266-281 | all the lines handed out so far plus the carry, joined by '\n', are the concatenation of every chunk received |
| Ytdlp.FeedStep | lib/downloader.ts:268-271 | adding one chunk's lines to what was handed out earlier extends the rebuilt stream by exactly that chunk |
| Ytdlp.EffectOfTame | lib/downloader.ts:233-263 | one line only writes `output_dir`, `progress_percent`, `speed` or `eta`, never issues an empty update, never records the dump root as the folder, and leaves `lastOutputDir` alone or sets it to a folder other than the dump root |
| Ytdlp.HandleLineEffectTame | lib/downloader.ts:224-264 | the effect of any scanned line is tame in that sense |
| Ytdlp.QuietLine | lib/downloader.ts:233-263 | a line matching neither the destination, the merger nor a progress pattern writes nothing and keeps `lastOutputDir` |
| Ytdlp.NoEffect | lib/downloader.ts:233-263 | no destination, no merger and no progress means no update |
| Ytdlp.FolderOfDestination | lib/downloader.ts:233-251 | a file directly in the dump root has the dump root as folder, so it is not recorded; a file one level inside another folder has that folder |
| ProgressLines.EtaLineMatch | lib/downloader.ts:14 | the ETA pattern matches a whole `[download] P% of SIZE at SPEED ETA T` line (blank padding, decimal P) and captures P, SPEED and T |
| ProgressLines.EtaLineGreedy | lib/downloader.ts:14 | the backtracking matcher consumes that whole line and puts the group boundaries around P, SPEED and T |
| ProgressLines.ParseEtaLine | lib/downloader.ts:66-67 | such a line parses to the decimal value of P, with speed and ETA |
| ProgressLines.ParseOfEta | lib/downloader.ts:66-67 | a line the ETA pattern matches parses to its three captures |
| ProgressLines.DoneLineGreedy | lib/downloader.ts:15 | the second pattern consumes a whole `[download] P% of SIZE in TIME at SPEED` line and captures P and SPEED |
| ProgressLines.DoneLacksE | lib/downloader.ts:14 | a finished line whose tokens have no 'E' has no 'E' at all, so the ETA pattern cannot match it |
| ProgressLines.ParseDoneLine | lib/downloader.ts:69-70 | a finished line parses to P and SPEED with no ETA |
| ProgressLines.CountLineGreedy | lib/downloader.ts:16 | the fragment pattern consumes `[download] Downloading fragment|video N of M` and captures N and M |
| ProgressLines.CountLacksSign | lib/downloader.ts:14-15 | a fragment line has no '%', so neither percentage pattern can match it |
| ProgressLines.ParseCountLine | lib/downloader.ts:72-77 | a fragment line parses to the percentage of N over M, with no speed and no ETA |
| ProgressLines.ParseCountNumbers | lib/downloader.ts:72-77 | for printed naturals n and m the percentage is `Math.round(n / m * 100)` (not finite for m = 0) and lies in 0..100 when n <= m |
| ProgressLines.ParseCountExample | lib/downloader.ts:72-77 | "Downloading fragment 3 of 12" gives 25 |
| Downloader.ApplyEachAppend | lib/downloader.ts:224-264 | applying two batches of line updates in turn is applying them one after the other |
| Downloader.ApplyEachKeeps | lib/downloader.ts:224-264 | a column that no update of the batch names keeps its value |
| Downloader.LaunchedRows | lib/downloader.ts:212-220 | the two `updateDownload` calls of `startDownload` leave the row 'downloading' with `started_at`, progress 0 and the process handle |
| Downloader.LaunchedSteps | lib/downloader.ts:212-220 | the launch field lists applied in turn give the launched row |
| Downloader.LinesTame | lib/downloader.ts:224-281 | any sequence of lines only writes the four progress columns and never records the dump root as the folder |
| Downloader.TameAppend | lib/downloader.ts:224-281 | tame effects stay tame when one follows another |
| Downloader.TameKeepsStatus | lib/downloader.ts:224-264 | line updates never change a job's status |
| Downloader.StartTakesHead | lib/downloader.ts:340-342 | starting the next queued job removes exactly it from the front of the queued ids |
| Downloader.StartAddsActive | lib/downloader.ts:212-216 | starting it raises the 'downloading' count by one |
| Downloader.FreeSlots | lib/downloader.ts:335-338 | the slots `processQueue` fills never take the active count past MAX_CONCURRENT = 2, and there are none at or above it |
| Downloader.LaunchAll | lib/downloader.ts:339-343 | starting a run of jobs keeps the same set of ids |
| Downloader.LaunchAllRows | lib/downloader.ts:339-343 | each started job becomes its launched row with the handle of its place in the run, and every other row is unchanged |
| Downloader.LaunchAllKeeps | lib/downloader.ts:339-343 | a job not in the run is unchanged |
| Downloader.StartProgress | lib/downloader.ts:339-343 | one loop iteration extends the started prefix of the original queue by the job it launches and keeps the rows equal to launching that prefix |
| Downloader.Kills | lib/downloader.ts:226-229 | a cancelled job gets one SIGTERM per line heard, each to its own process |
| Downloader.LinesSnoc | lib/downloader.ts:271 | one more line adds its own updates after those of the earlier lines |
| Downloader.ClosedCases | lib/downloader.ts:283-307 | on close a missing or cancelled job is left alone; a non-zero code records the "yt-dlp exited with code" error and re-runs the queue; exit 0 marks it processing at 100% and either completes it at once (no folder) or keeps its folder (the remembered one if any) pending; other rows are untouched |
| Downloader.LeavingKeepsCap | lib/downloader.ts:283-317 | a change that only moves one job out of 'downloading' keeps the table valid and does not raise the active count |
| Downloader.ClosedKeepsCap | lib/downloader.ts:283-307 | closing never raises the active count |
| Downloader.CancelOverwritten | lib/downloader.ts:109-204 | a job cancelled while post-processing is still marked completed with its folder and size when post-processing ends: the final update ignores the cancel |
| Downloader.ErrorIgnoresCancel | lib/downloader.ts:309-317 | a process error overwrites a cancelled row with 'error' and the message |
| Downloader.CancelKeepsCap | lib/downloader.ts:326-329 | cancelling keeps the table valid and never raises the active count |
| Downloader.ErrorKeepsCap | lib/downloader.ts:311-315 | recording an error never raises the active count |
| Downloader.FinishKeepsCap | lib/downloader.ts:196-203 | completing a job never raises the active count |
| Downloader.FailSteps | lib/downloader.ts:300-304 | the error field list names a column and applies as status 'error', the message and `completed_at` |
| Downloader.CancelSteps | lib/downloader.ts:326-329 | the cancel field list applies as status 'cancelled' and `completed_at` |
| Downloader.ProcessingSteps | lib/downloader.ts:113 | the processing field list applies as status 'processing' at 100% |
| Downloader.DoneSteps | lib/downloader.ts:198-203 | the completion field list applies as status 'completed', `completed_at`, and the size and folder when there is one |
| Downloader.FolderStep | lib/downloader.ts:296 | recording the folder changes only `output_dir` |
| Downloader.SpawnRegistered | lib/downloader.ts:218-222 | registering a fresh process keeps every registered job pointing at a process of that job with a consistent line log |
| Downloader.FolderTranscribed | lib/downloader.ts:238 | remembering a folder keeps every run's log in step with the lines it has heard |
| Downloader.HearRegistered | lib/downloader.ts:266-281 | after a chunk, the lines dispatched plus the carry still rebuild everything that stream has sent |
| Downloader.LinesStepRow | lib/downloader.ts:271 | handling one more line keeps the status and applies that line's updates after the earlier ones |
| Downloader.ScanAll | lib/downloader.ts:271 | one scanned line per line |
| Downloader.DispatchedNone | lib/downloader.ts:271 | handling no lines changes nothing |
| Downloader.DispatchedSnoc | lib/downloader.ts:271 | handling the lines one by one composes: the state after `done + [p]` is that after `done` followed by handling `p` |
| Downloader.Runner.constructor | lib/downloader.ts:10-11 | a runner starts with no processes, no pending post-processing and no spawns or signals |
| Downloader.Runner.Spawn | lib/downloader.ts:218-222 | a new handle is registered for the job with empty carries, and the spawn is logged with its URL and mode |
| Downloader.Runner.StartDownload | lib/downloader.ts:206-222 | a missing id changes nothing; otherwise the row becomes the launched row and exactly one yt-dlp with that URL and mode is spawned and registered |
| Downloader.Runner.StartNext | lib/downloader.ts:340-342 | starts the next queued job when there is one, raising the active count by one; with none, nothing changes and the queue is empty |
| Downloader.Runner.ProcessQueue | lib/downloader.ts:334-344 | `QueueRan`: the jobs started are taken in order from the front of the queue, at most the free slots and fewer only when the queue ran out; each becomes its launched row under the next handle; the active count grows by their number and stays capped at two |
| Downloader.Runner.ApplyUpdates | lib/downloader.ts:255-262 | only this job's row changes, by the updates in order |
| Downloader.Runner.HandleLine | lib/downloader.ts:224-264 | one line handled as `handleLine` does: SIGTERM and nothing else for a missing or cancelled job, otherwise the destination, merger and progress updates in that order |
| Downloader.Runner.HandleNext | lib/downloader.ts:271 | handling one more line extends the lines dispatched so far by that line and leaves the queue order, registry, launches and carries alone |
| Downloader.Runner.HandleLines | lib/downloader.ts:271 | the lines of a chunk are handled one after another |
| Downloader.Runner.OnData | lib/downloader.ts:266-281 | the chunk is split at newlines with the old carry in front, the complete lines are handled in order and the tail is kept as the new carry |
| Downloader.Runner.Unregister | lib/downloader.ts:284 | the job loses its process entry and nothing else changes |
| Downloader.Runner.PostBegin | lib/downloader.ts:109-119 | the start of `postProcess`: nothing for a missing or cancelled job; otherwise 'processing' at 100%, then completed at once when no folder is known, or pending on the stored or found folder |
| Downloader.Runner.Close | lib/downloader.ts:283-307 | the job's process is forgotten and the row and pending map become the close outcome |
| Downloader.Runner.OnClose | lib/downloader.ts:283-307 | the close outcome, then, exactly when it asks for it, `processQueue` run on the rows the close left (`QueueRan` from those rows: the front of their queue, one per free slot), with one handle per start; keeps the two-job cap |
| Downloader.Runner.OnError | lib/downloader.ts:309-317 | the process is forgotten, the row records the error whatever its status, and `processQueue` runs on those rows (`QueueRan`: the front of their queue, one per free slot), within the cap |
| Downloader.Runner.PostFinish | lib/downloader.ts:196-204 | the pending job completes with its folder and that folder's total size, then `processQueue` runs on those rows (`QueueRan`), within the cap |
| Downloader.Runner.Stop | lib/downloader.ts:321-325 | a registered process gets exactly one SIGTERM and leaves the registry; an unknown id changes nothing |
| Downloader.Runner.MarkCancelled | lib/downloader.ts:326-329 | the row, if any, becomes 'cancelled' with its completion time, other rows are kept, and the count of live downloads does not rise |
| Downloader.Runner.CancelDownload | lib/downloader.ts:320-332 | a live process gets exactly one SIGTERM and is forgotten, the row becomes 'cancelled' if it exists, `processQueue` runs on those rows (`QueueRan`) within the cap, and the answer is always true |
| PostSteps.Find | lib/downloader.ts:125 | `files.find`: the first name of the listing of that kind, no earlier name being of it, and none exactly when no name is of that kind |
| PostSteps.ProxyName | lib/downloader.ts:128 | the proxy of a master is another `.mp4` name, so the master is never overwritten |
| PostSteps.TxtName | lib/downloader.ts:149 | the transcript of a caption ends in `.txt`, so it is never itself a caption |
| PostSteps.TmpName | lib/downloader.ts:170 | the temporary WAV name is longer than, hence different from, the original |
| PostSteps.CleanAllCaptions | lib/downloader.ts:152-163 | the loop over the listing writes the cleaned transcript of each caption in turn and stops at the first caption it cannot read, as the text step specifies |
| PostSteps.TextStepHalts | lib/downloader.ts:155-160 | once a listed caption cannot be read, `cleanSrtFile` throws and the rest of the listing writes nothing |
| PostSteps.TranscriptNotCaption | lib/downloader.ts:157-161 | a transcript name is never a caption name |
| PostSteps.TextStepKeeps | lib/downloader.ts:152-163 | text mode leaves every file that is no caption's transcript exactly as it was |
| PostSteps.TranscriptOfPrefix | lib/downloader.ts:156 | a transcript of an earlier part of the listing is a transcript of the whole |
| PostSteps.TxtNameInjective | lib/downloader.ts:160 | two captions never share a transcript name |
| PostSteps.CaptionUntouched | lib/downloader.ts:156-162 | text mode never changes a caption file |
| PostSteps.TextStepWrites | lib/downloader.ts:152-163 | text mode leaves each caption's transcript holding that caption cleaned with the job URL |
| PostSteps.FirstCaptionWrites | lib/downloader.ts:145-151 | full mode cleans the first caption of the listing into its transcript and changes nothing else |
| PostSteps.FullStepCases | lib/downloader.ts:122-151 | full mode stores whatever ffmpeg wrote as the proxy; a failing ffmpeg skips the caption step (the rejection jumps to the catch), a successful one is followed by it |
| PostSteps.WavStepSafe | lib/downloader.ts:172-189 | on exit 0 the converted file replaces the WAV and the temp file is gone; on a non-zero exit the WAV is kept and the temp file removed; no other file is touched |
| PostSteps.WavModeCases | lib/downloader.ts:164-190 | wav mode on the first `AUDIO_*.wav`: a successful conversion replaces it with ffmpeg's output, a failed one keeps it, and nothing but the WAV and its temp file changes |
| PostSteps.OtherModeKeeps | lib/downloader.ts:121-191 | any other mode changes no file |
| DumpCancel.Route | app/api/dump/cancel/route.ts:7-32 | exactly one branch per case: no id, unknown id, a queued row, a downloading or processing row, a finished row |
| DumpCancel.ReplyOf | app/api/dump/cancel/route.ts:9-32 | success exactly for a queued or active row; 400 without an id or for a finished row, 404 for an unknown one |
| DumpCancel.Cancel | app/api/dump/cancel/route.ts:5-37 | a queued row is only marked cancelled (no process touched, no queue run); an active one goes through `cancelDownload` (SIGTERM, cancel, then the queue run on the cancelled rows); every other case changes nothing |
| DumpSubmit.FirstTruthy | app/api/dump/submit/route.ts:28-31 | `a \|\| b \|\| fallback`: the first non-empty value, or the fallback when none is |
| DumpSubmit.NumberOrZero | app/api/dump/submit/route.ts:30 | `duration \|\| 0` is 0 exactly for a missing or zero duration |
| DumpSubmit.InfoDefaults | app/api/dump/submit/route.ts:28-31 | an entry with no usable field reads as "Unknown Title", no channel, duration 0, no thumbnail |
| DumpSubmit.Infos | app/api/dump/submit/route.ts:25-33 | one summary per JSON line, in order |
| DumpSubmit.CheckOf | app/api/dump/submit/route.ts:49-76 | a failed or empty probe answers a single "Unknown"; one entry answers that entry; more answer a playlist with the full count, the total duration and the first ten entries |
| DumpSubmit.Rejection | app/api/dump/submit/route.ts:38-46 | "URL is required" exactly when the URL is missing, empty or not a string; otherwise "Invalid mode" unless the mode (default full) is full, text or wav |
| DumpSubmit.ShortIds | app/api/dump/submit/route.ts:86 | each id is the first eight characters of its UUID |
| DumpSubmit.PlaylistJobs | app/api/dump/submit/route.ts:95-107 | one job per playlist entry |
| DumpSubmit.InsertAll | app/api/dump/submit/route.ts:95-107 | inserting in turn keeps the table valid |
| DumpSubmit.IdsOf | app/api/dump/submit/route.ts:106 | the ids pushed are the jobs' ids, in order |
| DumpSubmit.InsertAllSucceeds | app/api/dump/submit/route.ts:95-107 | every insert succeeds exactly when the new ids are distinct and none is taken, and then they are appended in order |
| DumpSubmit.InsertAllRows | app/api/dump/submit/route.ts:97-105 | after a successful run every job is stored as built |
| DumpSubmit.InsertAllStep | app/api/dump/submit/route.ts:95-107 | one more insert adds the job, or fails on a taken id |
| DumpSubmit.InsertAllStops | app/api/dump/submit/route.ts:95-107 | after the first failing insert nothing more changes |
| DumpSubmit.InsertEntries | app/api/dump/submit/route.ts:95-107 | the loop of inserts ends in the table and outcome the insert run specifies, keeping the rows inserted before a failure |
| DumpSubmit.Post | app/api/dump/submit/route.ts:36-123 | validation replies first; "check" replies with the probe summary and changes nothing; a single submit inserts one queued job with an 8-character id and runs the queue, or answers 500 on a failed probe or taken id; a playlist submit inserts one job per listed entry and runs the queue, or answers 500 keeping what was inserted before the failure; any other action is "Invalid action" |
| FilesDetail.Classify | app/api/files/detail/route.ts:15-23 | the kind is video, audio, subtitle, text or image exactly when the lower-cased extension is in that list, and data exactly when it is in none |
| FilesDetail.BareExt | app/api/files/detail/route.ts:48 | the reported extension is the lower-cased `extname` without its dot, and empty when there is none |
| FilesDetail.Visible | app/api/files/detail/route.ts:43-56 | the entries are exactly the described non-hidden names of the folder |
| FilesDetail.ListingOrdered | app/api/files/detail/route.ts:57-66 | the listing is sorted by kind rank, then proxy first, then name; it is a permutation of the visible entries, and entries with equal keys keep their directory order |
| FilesDetail.Find | app/api/files/detail/route.ts:76-81 | `entries.find`: the first entry of that kind (and proxy flag), and none exactly when no entry qualifies |
| FilesDetail.PreviewIsHead | app/api/files/detail/route.ts:75-78 | in the sorted listing the preview (proxy first, else master) is the first entry when that is a video, and nothing otherwise |
| FilesDetail.GuardAdmitsSiblings | app/api/files/detail/route.ts:34-37 | the `startsWith` guard accepts everything below the dump root, and also a sibling directory whose name only begins with `_Dump` |
| FilesDetail.VisibleNames | app/api/files/detail/route.ts:125 | the remaining names are exactly the non-hidden names |
| FilesDetail.PrunableMeans | app/api/files/detail/route.ts:125-126 | the folder is removed after a file delete exactly when everything left is hidden or `info.json` |
| FilesDetail.VisibleNamesDistinct | app/api/files/detail/route.ts:125 | distinct directory names stay distinct after filtering |
| FilesDetail.Without | app/api/files/detail/route.ts:122 | `unlinkSync` removes exactly the entries with that name |
| FilesDetail.Lookup | app/api/files/detail/route.ts:119 | an entry with that name, or none only when no entry has it |
| FilesDetail.Dump.constructor | app/api/files/detail/route.ts:5 | the dump starts with the given folders and plain files |
| FilesDetail.Dump.Get | app/api/files/detail/route.ts:26-94 | 400 without a folder, 400 "Invalid path" when the guard fails, 404 exactly for a path that does not exist, 500 "Failed to read folder" exactly for a path that is no directory or holds a visible entry that cannot be stat'ed; otherwise the sorted, stable permutation of the visible entries with the preview and the first image |
| FilesDetail.Dump.Delete | app/api/files/detail/route.ts:97-141 | the same 400/400/404 checks; no file removes the whole folder, or the plain file the parameter names; a file outside the folder is 400, a missing one, a broken link or anything below a plain file 404, a directory 500; otherwise it is removed, and the folder too when only hidden files or `info.json` remain; nothing changes on a refusal |
| FilesList.DetectMode | app/api/files/list/route.ts:34-42 | 'wav' exactly when a `.wav` is present and no video; 'text' exactly when there is a `.srt` but neither video nor `.wav`; 'full' in every other case |
| FilesList.LastIndexOf | app/api/files/list/route.ts:45 | the last position holding the character, or -1 when there is none |
| FilesList.VideoId | app/api/files/list/route.ts:44-47 | a found id is a non-empty run of `[A-Za-z0-9_-]` that closes the name in brackets |
| FilesList.VideoIdOf | app/api/files/list/route.ts:44-47 | a name ending in `[id]` with such an id gives exactly that id |
| FilesList.FirstBracket | app/api/files/list/route.ts:82 | the leftmost position where `\[[^\]]+\]$` can start, or -1 when none can |
| FilesList.StripIdSuffixOf | app/api/files/list/route.ts:82 | "title", blanks, then "[id]" strips back to the title |
| FilesList.TrimSpaceRun | app/api/files/list/route.ts:82 | dropping the trailing blank run gives the title back |
| FilesList.Names | app/api/files/list/route.ts:57 | the names of the directory entries, in order |
| FilesList.VisibleNames | app/api/files/list/route.ts:58 | exactly the names not starting with '.' |
| FilesList.CountOthers | app/api/files/list/route.ts:98 | `fileCount` is the number of files less the number of `info.json` entries, so it equals the file count exactly when no `info.json` is present |
| FilesList.FirstThumbnail | app/api/files/list/route.ts:85-87 | the first `.webp`, `.jpg` or `.png`, and none only when there is no such file |
| FilesList.Describe | app/api/files/list/route.ts:68-83 | with a parsed `info.json`, its channel, duration and title (the folder name when empty); with an unreadable one, the folder name and defaults; without one, the folder name with its `[id]` suffix stripped |
| FilesList.EntryOf | app/api/files/list/route.ts:59-108 | an entry exactly for a readable directory, with its mtime, recursive size, file count, mode, thumbnail and video id |
| FilesList.Kept | app/api/files/list/route.ts:57-110 | exactly the entries of visible readable folders whose lower-cased title or channel contains the search |
| FilesList.TotalSizeOfPermutation | app/api/files/list/route.ts:113 | the total size does not depend on the order of the entries |
| FilesList.TotalSizeSplit | app/api/files/list/route.ts:113 | taking one entry out of a list lowers the total by its size |
| FilesList.Get | app/api/files/list/route.ts:49-124 | a missing dump root answers an empty listing; an unreadable one 500; otherwise the kept entries newest first, a stable permutation of them, with their total size and count |
| FsTree.GetDirSize | lib/downloader.ts:95-107 | the recursive walk adds the sizes of files and nested folders; an unreadable folder counts 0, and an entry that cannot be stat'ed ends the walk of its folder with what was summed so far |
| FsTree.DirSizeBound | lib/downloader.ts:95-107 | the size reported never exceeds what the files weigh, and equals it when every read succeeds |
| FsTree.EntriesSizeBound | lib/downloader.ts:98-103 | the same bound for the entries from any position on |
| FsTree.UnreadableWeighsNothing | lib/downloader.ts:104 | a folder that cannot be listed adds nothing and the walk goes on past it |
| Sorting.InsertSorted | app/api/files/list/route.ts:111 | inserting into a key-ordered list keeps it ordered and adds exactly that element |
| Sorting.SortedPermutation | app/api/files/list/route.ts:111 | `sort` with a key comparator returns a key-ordered permutation of its input |
| Sorting.InsertStable | app/api/files/list/route.ts:111 | inserting puts the new element after the equal-keyed ones already placed |
| Sorting.SortStable | app/api/files/list/route.ts:111 | the sort is stable: elements with equal keys keep their input order |
| FilesServe.MimeOf | app/api/files/serve/route.ts:7-52 | the MIME type listed for the lower-cased extension, or `application/octet-stream` for any other |
| FilesServe.StreamableExtensions | app/api/files/serve/route.ts:7-23 | exactly `.mp4`, `.mkv`, `.webm`, `.mov`, `.wav` and `.mp3` get a `video/` or `audio/` type and so can be streamed in ranges |
| FilesServe.IndexOf | app/api/files/serve/route.ts:70 | the position of the first occurrence at or after the start, so `replace` removes the first `bytes=`; -1 exactly when the text occurs nowhere from the start on |
| FilesServe.ParseRange | app/api/files/serve/route.ts:70-72 | the start is `parseInt` of the text before '-' once "bytes=" is removed; the end is `parseInt` of the text after it, or the start plus 5 MiB - 1 capped at the last byte when that text is empty |
| FilesServe.Utf8 | app/api/files/serve/route.ts:61 | a character encodes to one to four bytes, a single byte (itself) exactly when it is ASCII |
| FilesServe.HexUpper | app/api/files/serve/route.ts:61 | a nibble prints as an upper-case hex digit |
| FilesServe.Escapes | app/api/files/serve/route.ts:61 | each byte becomes three characters, `%` and two hex digits |
| FilesServe.EncodeUriSafe | app/api/files/serve/route.ts:61 | `encodeURIComponent` output holds only `%` and unreserved characters, is never shorter than its input, and equals it exactly when the input is all unreserved |
| FilesServe.EncodeUriConcat | app/api/files/serve/route.ts:61 | encoding works character by character, so it distributes over concatenation |
| FilesServe.EncodeUriSpace | app/api/files/serve/route.ts:61 | a space encodes as `%20` |
| FilesServe.EncodeUriSpaceBetween | app/api/files/serve/route.ts:61 | two unreserved words joined by a space encode with `%20` between them |
| FilesServe.EncodeUriExample | app/api/files/serve/route.ts:61 | "a b.mp4" is sent as `filename="a%20b.mp4"` |
| FilesServe.EncodeUriAccent | app/api/files/serve/route.ts:61 | 'é' is sent as its two UTF-8 bytes, `%C3%A9` |
| FilesServe.Serve | app/api/files/serve/route.ts:30-117 | 400 without both params; 400 "Invalid path" when the guard fails; 404 for a missing file; 500 for a directory; `dl=1` sends an attachment with the encoded name; a range on a streamable type sends 206 with that range (500 when it does not parse or is negative); text and JSON are sent as text; anything else whole with its size; only a regular file is ever sent |
| FilesServe.ServeOpenEnded | app/api/files/serve/route.ts:69-89 | "bytes=S-" with S inside the file answers 206 with between 1 byte and 5 MiB, ending at S + 5 MiB - 1 or at the last byte, whichever comes first |
| FilesServe.OpenEndedRange | app/api/files/serve/route.ts:70-73 | "bytes=S-" parses to S and the capped end, so the chunk never exceeds 5 MiB nor runs past the file |
| FilesServe.ExplicitRange | app/api/files/serve/route.ts:70-72 | "bytes=S-E" parses to S and E |
| FilesServe.RangeText | app/api/files/serve/route.ts:70 | removing "bytes=" and splitting at '-' gives the two numbers' texts |
| SendToScribe.CandidateInjective | app/api/files/send-to-scribe/route.ts:40 | different counters give different `base_i.ext` names |
| SendToScribe.CandidatesCount | app/api/files/send-to-scribe/route.ts:38-42 | the first n candidates are n distinct names, so the suffix loop always ends |
| SendToScribe.SubsetCount | app/api/files/send-to-scribe/route.ts:38-42 | a subset of a finite set is no larger |
| SendToScribe.DestinationEscapes | app/api/files/send-to-scribe/route.ts:17-32 | folder "f/g" with file "../h.mp4" passes the guard (the source stays inside the dump), yet `path.join(SCRIBE_DIR, file)` lands in the parent of the watch folder |
| SendToScribe.IntendedDestinationOf | app/api/files/send-to-scribe/route.ts:32 | the corrected destination keeps only the last segment of the file, so it is always a plain name directly inside the watch folder; nothing is sent when the file normalises to nothing |
| SendToScribe.IntendedAgrees | app/api/files/send-to-scribe/route.ts:32 | for a plain file name the corrected destination is exactly the one the source computes |
| SendToScribe.ScribeFolder.constructor | app/api/files/send-to-scribe/route.ts:6 | the watch folder starts with the given names |
| SendToScribe.ScribeFolder.FreeName | app/api/files/send-to-scribe/route.ts:32-43 | the name itself when it is free; otherwise the first `base_i.ext` (i from 1) that is free; in either case a name not yet present |
| SendToScribe.ScribeFolder.Send | app/api/files/send-to-scribe/route.ts:10-55 | 400 without both params, 400 "Invalid path" when the guard fails, 404 for a missing source, 400 for an extension outside the ten allowed, 500 "Failed to send to Scribe" when the copy throws; exactly one new name is added on success, and nothing changes on a refusal |
| TranscribeFiles.CollectMembers | app/api/transcribe/files/route.ts:19-44 | a gathered item comes from some directory entry, and each entry's items are gathered |
| TranscribeFiles.CollectSetMembers | app/api/transcribe/files/route.ts:27 | the same for the set of stems |
| TranscribeFiles.WatchEntriesMembers | app/api/transcribe/files/route.ts:17-31 | a watch-folder entry is listed exactly when it is a statable media file, as ready, or processing when its `.model` sidecar exists |
| TranscribeFiles.WatchStemsMembers | app/api/transcribe/files/route.ts:26-27 | the stems recorded are exactly those of the listed media files |
| TranscribeFiles.TranscriptEntriesMembers | app/api/transcribe/files/route.ts:32-45 | a transcript is listed exactly when its extension is `.txt`, `.srt` or `.vtt`, its stem belongs to no listed media file and it can be stat'ed; it is listed as completed under its stem |
| TranscribeFiles.WatchEntriesNotCompleted | app/api/transcribe/files/route.ts:28 | a media file is never reported completed |
| TranscribeFiles.TranscriptEntriesCompleted | app/api/transcribe/files/route.ts:38-42 | a transcript is always completed and never shadows a media file's stem |
| TranscribeFiles.WatchStep | app/api/transcribe/files/route.ts:19-30 | one more directory entry adds one listed file and its stem, or nothing |
| TranscribeFiles.ScanWatch | app/api/transcribe/files/route.ts:17-31 | the loop over the watch folder lists exactly the media entries and their stems |
| TranscribeFiles.ScanTranscripts | app/api/transcribe/files/route.ts:32-45 | the loop over the transcripts folder lists exactly the transcript entries |
| TranscribeFiles.List | app/api/transcribe/files/route.ts:13-52 | 500 exactly when a folder cannot be read; otherwise the merged entries newest first, a stable permutation; with no watch folder everything is completed, with no transcripts folder nothing is, and no completed entry shares a media file's stem |
| Heartbeat.Counter | app/api/services/heartbeat/route.ts:27 | `parseInt(p) \|\| 0`: the parsed counter, or 0 when it does not parse |
| Heartbeat.SampleNetwork | app/api/services/heartbeat/route.ts:21-28 | no reading exactly when the netstat output is empty or has fewer than two fields |
| Heartbeat.SampleNetworkReads | app/api/services/heartbeat/route.ts:21-28 | "rx tx" printed by netstat reads back as those two counters |
| Heartbeat.Rate | app/api/services/heartbeat/route.ts:38-39 | the rate is never negative; it is the counter growth over the elapsed seconds, and 0 when the counter went down |
| Heartbeat.Window | app/api/services/heartbeat/route.ts:40-41 | the last n samples: no more than n and no more than there are |
| Heartbeat.PushAllWindow | app/api/services/heartbeat/route.ts:40-41 | after any run of pushes the buffer is exactly the newest 120 samples |
| Heartbeat.WindowAppend | app/api/services/heartbeat/route.ts:40-41 | trimming early does not change the newest n |
| Heartbeat.PushBound | app/api/services/heartbeat/route.ts:40-41 | a push keeps at most 120 samples, ends with the new one, and drops the oldest when full |
| Heartbeat.Monitor.constructor | app/api/services/heartbeat/route.ts:17-19 | empty buffer, no previous sample, no fast sampler |
| Heartbeat.Monitor.TakeSample | app/api/services/heartbeat/route.ts:30-46 | `SampleTaken`: no reading changes nothing; otherwise a rate sample is pushed only when a previous sample is more than 0.2 s old, and the reading always becomes the previous sample |
| Heartbeat.Monitor.StartFastSampling | app/api/services/heartbeat/route.ts:59-70 | the expiry moves to now + 90 s, and a sampler is created only when none is running |
| Heartbeat.Monitor.FastTick | app/api/services/heartbeat/route.ts:62-69 | after the expiry the sampler stops and buffer and previous sample stay; before it, buffer and previous sample change exactly as one `takeSample` (`SampleTaken`) changes them |
| Heartbeat.Monitor.Get | app/api/services/heartbeat/route.ts:72-97 | `fast=1` extends fast sampling; buffer and previous sample change exactly as one `takeSample` changes them; the reply is that buffer, rates rounded, the newest as current (none for an empty buffer), and the buffer size 120 |
| Services.ParseNum | app/api/services/route.ts:67-68 | `parseInt` is never null, and NaN exactly when the text does not parse |
| Services.ServiceStatus | app/api/services/route.ts:60-73 | no line means stopped; running exactly when a positive pid was read; errored exactly when not running and an exit code other than 0 was read; only a running service reports a pid |
| Services.RunningLine | app/api/services/route.ts:60-73 | a `launchctl list` line "pid, exit, job" with a positive pid reads as running with that pid and exit code |
| Services.IdleLine | app/api/services/route.ts:60-73 | a line "-, exit, job" reads as stopped for exit 0 and errored otherwise, with no pid |
| Services.LineFields | app/api/services/route.ts:64 | splitting the tab-separated line on whitespace gives its three fields |
| Services.FirstUrl | app/api/services/route.ts:89 | the leftmost place where `https://\S+` matches, and none when no place does |
| Services.UrlText | app/api/services/route.ts:89 | the matched URL starts with "https://" and runs up to the next blank or the end |
| Services.FirstProxy | app/api/services/route.ts:90 | the leftmost place where `proxy\s+http://127.0.0.1:(\d+)` matches, and none when no place does |
| Services.ProxyDigits | app/api/services/route.ts:90 | the captured port is a non-empty digit run |
| Services.FunnelOf | app/api/services/route.ts:85-96 | the funnel is active exactly when the status says "Funnel on"; an inactive one has no port or URL; an active one has a URL exactly when some `https://` token occurs and a port exactly when a local proxy line occurs |
| Services.ProxyPortReads | app/api/services/route.ts:90-93 | "proxy  http://127.0.0.1:PORT" yields that port |
| Services.RemoteHealth | app/api/services/route.ts:100-105 | running with the port open exactly when curl prints 200, otherwise stopped; never errored |
| Services.Uptime | app/api/services/route.ts:75-78 | no uptime exactly when `ps` prints nothing |
| Services.LocalView | app/api/services/route.ts:128-146 | an open port reports running whatever launchd says, otherwise launchd's status; pid and exit code are launchd's; the port is open exactly when a non-zero port has a listener; funneled exactly when the active funnel proxies this port |
| Services.RemoteView | app/api/services/route.ts:113-126 | running exactly when the HTTP check answers 200, with the port open then; never a pid, exit code or uptime |
| Services.ViewOf | app/api/services/route.ts:112-147 | each view describes its own service and is funneled exactly when the active funnel proxies its port |
| Services.RegistryFacts | app/api/services/route.ts:17-46 | three services, and the remote one has a port |
| Services.Get | app/api/services/route.ts:109-150 | one view per registered service in registry order, with the funnel read once and shared by all |
| Services.FindIn | app/api/services/route.ts:157 | a service with that id, or none exactly when no service has it |
| Services.Find | app/api/services/route.ts:157 | a registered service is always well formed |
| Services.ActionCommands | app/api/services/route.ts:163-198 | commands run exactly for start, stop and restart; the remote service gets one brew command with the action as verb; a local stop unloads the agent's plist under the home directory, and a local start or restart ends by loading it and starting the label |
| Services.RestartIsStopThenStart | app/api/services/route.ts:181-191 | a local restart runs exactly a stop's commands followed by a start's |
| Services.FreshView | app/api/services/route.ts:224-244 | after an action a remote service is its health-check view and never funneled; a local service keeps launchd's status even with its port open, with launchd's pid and exit code, port open exactly when a non-zero port is listening and funneled exactly when the funnel serves its port; it differs from the listing view only in that status, and only when the port is open and launchd does not say running |
| Services.Dispatch | app/api/services/route.ts:200-244 | the reply is fresh status exactly for funnel-off, or for funnel-on on a funnelable service with a port; funnel-on elsewhere is 400 "Service cannot be funneled", anything else 400 "Unknown action" |
| Services.Post | app/api/services/route.ts:154-249 | an unknown id is 404 and runs nothing; start, stop and restart run their commands and then, as written, fall into the second switch and answer 400 "Unknown action"; funnel actions go through the funnel dispatch |
| Studio.HeaderName | app/api/services/studio/route.ts:42 | a header names a non-empty run of word characters |
| Studio.HeaderNameIff | app/api/services/studio/route.ts:42 | `^===(\w+)===$` matches a line exactly when it is a non-empty word between `===` marks, and captures that word |
| Studio.Append | app/api/services/studio/route.ts:47 | a line joins earlier content with '\n', and empty content with nothing |
| Studio.Step | app/api/services/studio/route.ts:41-48 | the current section, once there is one, always has an entry |
| Studio.Run | app/api/services/studio/route.ts:41-49 | the same after any number of lines |
| Studio.SplitSections | app/api/services/studio/route.ts:39-49 | the loop with `currentKey` computes the sections of the output |
| Studio.RunAppend | app/api/services/studio/route.ts:41-49 | running over two stretches of lines is running over one then the other |
| Studio.PreambleDropped | app/api/services/studio/route.ts:46 | lines before the first header are discarded |
| Studio.SectionKeys | app/api/services/studio/route.ts:44-45 | a section exists exactly when some line is its header |
| Studio.DropBlank | app/api/services/studio/route.ts:47 | the blank lines a section starts with are lost |
| Studio.AccumJoin | app/api/services/studio/route.ts:47 | once a section has content, later lines are joined to it with '\n' |
| Studio.AccumContent | app/api/services/studio/route.ts:47 | a section's text is its lines after the leading blank ones, joined with '\n' |
| Studio.BodyRun | app/api/services/studio/route.ts:46-48 | header-free lines all go to the current section |
| Studio.OpenSection | app/api/services/studio/route.ts:43-48 | a header followed by header-free lines makes that section's text those lines |
| Studio.Untouched | app/api/services/studio/route.ts:41-49 | lines that do not reopen a closed section leave its text alone |
| Studio.Closed | app/api/services/studio/route.ts:43-45 | the next header closes a section |
| Studio.UpToSection | app/api/services/studio/route.ts:41-49 | up to the end of a section's body, that section is current and holds its body |
| Studio.SectionContent | app/api/services/studio/route.ts:39-49 | a section whose header is not repeated holds exactly the lines between its header and the next, leading blanks dropped, joined with '\n' |
| Studio.Section | app/api/services/studio/route.ts:59 | `sections.X \|\| ''`: the section text, or "" when it is absent |
| Studio.FirstLabel | app/api/services/studio/route.ts:60-86 | the leftmost place where "label, optional blanks, digits" matches, and none when no place does |
| Studio.LabelNumber | app/api/services/studio/route.ts:60-91 | `parseInt(m?.[1] \|\| '0')` is 0 when the label is absent |
| Studio.LabelNumberReads | app/api/services/studio/route.ts:60-65 | "Pages free:" (or another label), blanks and a number read back as that number |
| Studio.LabelDigits | app/api/services/studio/route.ts:60-65 | a label followed by blanks and digits reads as those digits' value |
| Studio.MemoryOf | app/api/services/studio/route.ts:57-78 | the total is `parseInt` of the memory size (of "0" when empty); the percentage is 0 without a positive total, otherwise the rounded share used, within 0..100 when used does not exceed the total |
| Studio.Percent | app/api/services/studio/route.ts:68 | `Math.round(used / total * 100)`, within 0..100 when used <= total |
| Studio.GpuOf | app/api/services/studio/route.ts:80-94 | the device, renderer and tiler figures are the numbers after their `"… Utilization %"=` labels, 0 when absent |
| Studio.FirstDisk | app/api/services/studio/route.ts:97 | the leftmost five tokens ending in "N%", and none when there are none |
| Studio.DiskOf | app/api/services/studio/route.ts:96-103 | no disk exactly when no five tokens match; otherwise the size, used and available tokens and the percentage of the first match |
| Studio.DiskReads | app/api/services/studio/route.ts:97-103 | a `df -h` line "fs size used avail N% …" reads as those fields and N |
| Studio.ReportOf | app/api/services/studio/route.ts:51-120 | the report reads memory, GPU and disk from their sections, and the chip from CPUBRAND or "Unknown" |
| Studio.Get | app/api/services/studio/route.ts:14-121 | "Studio unreachable" exactly when the session printed nothing, otherwise the report of its sections |
| BatchTranscribe.Pad | studio/batch_transcribe.py:43 | `{n:0w}` prints n in decimal, zero-padded to at least w digits |
| BatchTranscribe.Zeros | studio/batch_transcribe.py:43 | the padding is k zero digits |
| BatchTranscribe.ZerosValue | studio/batch_transcribe.py:43 | leading zeros do not change the value |
| BatchTranscribe.LeadingZero | studio/batch_transcribe.py:43 | one leading zero does not change the value |
| BatchTranscribe.FormatTimestampFields | studio/batch_transcribe.py:38-43 | a time of h hours, m minutes, s seconds and ms milliseconds (truncated below the millisecond) prints as `HH:MM:SS,mmm` of exactly those fields |
| BatchTranscribe.TimestampReads | studio/batch_transcribe.py:43 | the printed timestamp reads back: ':' ':' ',' at fixed places from the end, the hours (at least two digits), then two-digit minutes and seconds and three-digit milliseconds with their values |
| BatchTranscribe.Fields | studio/batch_transcribe.py:43 | the separators and fields sit at fixed offsets from the end |
| BatchTranscribe.PadWidth | studio/batch_transcribe.py:43 | a value below 10^w prints in exactly w digits |
| BatchTranscribe.NatToStringLength | studio/batch_transcribe.py:43 | a value below 10^w has at most w digits |
| BatchTranscribe.Splitext | studio/batch_transcribe.py:112 | `os.path.splitext` splits the path into base and extension that concatenate back; the extension lies in the last segment, starts with its last '.' and holds no other; it is non-empty exactly when that segment has a '.' preceded by some character other than '.' |
| BatchTranscribe.VersionedInjective | studio/batch_transcribe.py:114-116 | different version numbers give different `_vN` paths |
| BatchTranscribe.ModelMap | studio/batch_transcribe.py:19-24 | a model exactly for the presets turbo, fast, balanced and quality |
| BatchTranscribe.SidecarModel | studio/batch_transcribe.py:91-104 | a sidecar that is not a JSON object, or whose preset cannot be a dict key, gives nothing (the exception path); otherwise its `whisperModel`, else the model of its preset (default "quality"), else large-v3 |
| BatchTranscribe.ChooseModel | studio/batch_transcribe.py:130 | `read_model_sidecar(...) or fallback`: a truthy sidecar model wins, anything else falls back |
| BatchTranscribe.PresetModels | studio/batch_transcribe.py:19-24 | a known preset maps to its model, and an empty sidecar gives large-v3, the model of "quality" |
| BatchTranscribe.MenuModel | studio/batch_transcribe.py:258-275 | any answer other than 1-4 falls back to large-v3 AUTO |
| BatchTranscribe.ArgModel | studio/batch_transcribe.py:284-290 | any argument outside the eight known ones falls back to large-v3 AUTO |
| BatchTranscribe.ArgMatchesMenu | studio/batch_transcribe.py:258-290 | apart from the four words, the command-line argument picks what the menu picks, and each word picks what its digit picks |
| BatchTranscribe.PySuffix | studio/batch_transcribe.py:309 | `Path.suffix` is the end of the name from its last '.', with no other '.'; it is empty exactly when that dot is missing, first or last |
| BatchTranscribe.Volume.CheckCancelled | studio/batch_transcribe.py:76-88 | cancelled exactly when a cancel marker exists or the source is gone; the marker is removed and nothing else is |
| BatchTranscribe.Volume.ReadModelSidecar | studio/batch_transcribe.py:91-104 | with a readable sidecar the model it names, and the sidecar is removed; without one, nothing and no change |
| BatchTranscribe.Volume.VersionedPath | studio/batch_transcribe.py:107-118 | the path itself when free, otherwise the first free `_vN` with N from 2; never an existing file |
| BatchTranscribe.Eligible | studio/batch_transcribe.py:306-310 | exactly the listed names with a media suffix, in order |
| BatchTranscribe.EligibleDistinct | studio/batch_transcribe.py:306-310 | filtering keeps names distinct |
| BatchTranscribe.Watcher.constructor | studio/batch_transcribe.py:301 | no file is active at first |
| BatchTranscribe.Watcher.Poll | studio/batch_transcribe.py:306-338 | one polling pass is the pass function over the eligible names in listing order: active ones skipped, cancelled ones lose marker and file, non-empty ones become active and are submitted in order |
| BatchTranscribe.Watcher.Done | studio/batch_transcribe.py:330-331 | the finished file is no longer active |
| BatchTranscribe.CancelNotMedia | studio/batch_transcribe.py:317 | a cancel marker is never itself a media file |
| BatchTranscribe.CancelDistinct | studio/batch_transcribe.py:317 | one file's marker is never another media file's marker or path |
| BatchTranscribe.AdmitOthers | studio/batch_transcribe.py:312-338 | handling one name leaves every other name's admissibility and status alone |
| BatchTranscribe.AdmitAllMembers | studio/batch_transcribe.py:312-338 | a name is submitted in a pass exactly when it was already, or it is in the pass and admissible at its start |
| BatchTranscribe.PollAdmission | studio/batch_transcribe.py:306-338 | a poll submits a file exactly when it is listed, has a media suffix, is not active, has no cancel marker and is non-empty |
| BatchTranscribe.AdmitAllKeeps | studio/batch_transcribe.py:312-338 | no file is submitted twice or while active, and the active set is the old one plus the submitted files; files are only removed |
| BatchTranscribe.CancelledRemoved | studio/batch_transcribe.py:316-324 | a listed, inactive file with a cancel marker loses both the marker and the file |
| BatchTranscribe.AdmitAllFiles | studio/batch_transcribe.py:316-324 | a pass only ever removes files |

## Left out

- Strings.Lower: folds only the ASCII letters A-Z, where `toLowerCase` and Python's `lower` fold all of Unicode. Every extension the code compares against is ASCII.
- FilesDetail.ListingOrdered: the name tiebreak compares Unicode scalar values, where the route uses `localeCompare`. So "B.srt" sorts before "a.srt" here and after it in the route. A locale's collation tables have no finite model here.
- Paths.JoinPath: plain `a + "/" + b`, with no normalisation. The path guards take `path.resolve` as a function parameter; `Paths.Normalize` models its lexical part.
- DumpSubmit.Post: the outer `catch` that answers 500 when the request body is not JSON is left out. The body arrives already decoded.
- DumpCancel.Cancel: the outer `catch` that answers 500 on a malformed body is left out, as is the body parsing.
- Services.Post: the outer `catch` around `req.json()` is left out. Id and action arrive decoded.
- `findOutputDir` scans the dump folder for the newest matching folder. It is an oracle parameter (`found`, `again`) of the exit and post-processing handlers.
- Db.JobStore.Insert: a duplicate id returns `false` and changes nothing, where SQLite throws a constraint error to the caller.
- Db.History: the default arguments `limit = 50, offset = 0` are not modelled. Callers always pass both.
- `created_at` is not a clock value. Rows are ordered by insertion, which is the order the timestamps would give with a strictly increasing clock.
- Rates and percentages are Dafny `real`s, not IEEE doubles. Rounding follows `Math.round` on exact values.
- DumpSubmit.InfoOf: a duration is an `int` of whole seconds, in `Raw.duration` as in the job row. A fractional JSON duration (yt-dlp can print `212.5`) is not representable, so the model does not carry its fraction into the summary, the playlist total or the row.
- FilesList.Describe: `Meta.duration` from `info.json` is an `int` of whole seconds for the same reason. A fractional duration is not carried.
- Heartbeat.Monitor.Get: the `formatRate` strings (`downFmt`/`upFmt`) are not part of the reply. Only the rounded numbers are.
- Studio.ReportOf: the CPU figures, `uptime`, `loadAvg` and the GPU's `allocGB`/`inUseGB` are not read. Of the memory figures only the used bytes (active + wired + compressed pages), the `hw.memsize` total and the percentage are modelled. The breakdown `activeGB`, `wiredGB`, `compressedGB` and `freeGB` is not, nor the free, inactive and speculative page counts behind `freeGB`. The printed GB strings (`toFixed(1)`, the rounded total) are not produced either.
- FilesDetail.Dump.Get: the reply leaves out the parsed `info.json` object (`info`). JSON parsing is not modelled.
- Downloader.Runner.StartDownload: always stores the new process handle as the row's pid. The source stores `proc.pid || null`, which is null when the spawn fails; a failed spawn is then reported through the error event, which `OnError` models.
- ProgressLines: the `\s+` gaps of the progress patterns are proved only for padding made of spaces, which is what yt-dlp prints. Tabs and other whitespace in a gap are not covered by the parse lemmas; the matcher itself accepts them.
- PostSteps: each ffmpeg run is an oracle giving its end and the content it wrote. The encoding itself is not modelled.
- Downloader.Runner.PostFinish: takes the folder's directory tree as a parameter separate from the `PostSteps` file map. The link between the mode step's files and the sizes walked is not proved.
- FilesDetail.Dump.Delete: `file` is taken as one entry name of the folder. A nested path such as "sub/x.mp4" answers 404 here, where the route unlinks it and answers folderRemoved false. "." (the folder itself) also answers 404 here, where `unlinkSync` throws and the route answers 500 "Failed to delete". Subfolder contents are not modelled.
- FilesDetail.Dump: folders are keyed by the raw `folder` parameter. Two spellings that resolve to the same directory (`x/../y` and `y`) are two keys.
- SendToScribe.ScribeFolder.Send: the watch folder is a set of names joined to its path. A destination that `path.join` moves out of the folder is shown by `SendToScribe.DestinationEscapes` rather than tracked in the state.
- SendToScribe.ScribeFolder.Send: whether `copyFileSync` succeeds is a parameter (`copied`). The flat set of names cannot tell which destinations, such as "sub/x.mp4", lack their directory, so the model does not derive it.
- FilesServe.EncodeUriSafe: Dafny characters are Unicode scalar values, so the `URIError` that `encodeURIComponent` throws on a lone surrogate cannot arise.
- Shell commands (`launchctl`, `lsof`, `ps`, `curl`, `tailscale`, SSH), clocks and timers are parameters. The settle delays and the fast-sampling interval are not modelled as time.
- batch_transcribe.py's `transcribe_worker` (the Whisper model, the SRT writing, the progress JSON files and the moves into `Done`), `notify`, `get_media_duration` (ffprobe) and the thread pool are not modelled. The model covers the worker's decision rules and the watcher's polling pass.
- Services.Post: start, stop and restart run their commands and then answer 400 "Unknown action", because the lifecycle `switch` falls through to the funnel `switch`'s default. This is modelled as written.

## Findings

| source | as written | input that shows it | evidently intended | confidence | as-written member | corrected member |
|---|---|---|---|---|---|---|
| app/api/files/send-to-scribe/route.ts:32 | the destination is `path.join(SCRIBE_DIR, file)`, while the guard at line 19 checks only the source path under the dump folder | folder "f/g" and file "../h.mp4": the source resolves to the dump folder's "f/h.mp4", which passes the guard, and the copy goes to the parent of the watch folder | the copy lands inside the watch folder, named by the file's base name | not executed | SendToScribe.DestinationEscapes | SendToScribe.IntendedDestinationOf |
