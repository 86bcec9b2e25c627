# Lidarr music-video add-on, modelled in Dafny

This project models the three PHP scripts of the music-video add-on for
Lidarr and proves properties of the model:

- **`cleanup_fragments.php`** is the fragment reconciliation run. It walks
  the video root and collects video fragments (`.f137`) and audio fragments
  (`.f251`), keyed by their path without the five-character suffix. It
  merges every matched pair with ffmpeg into `<base>.mp4` and counts the
  unmatched fragments as orphans, deleting them only when
  `FRAGMENT_DELETE_ORPHANS` is true. Modelled in `fragments.dfy`, module
  `Fragments`.
- **`sync.php`** is the download run. It covers:
  - the configuration;
  - the YouTube search with its three fallback queries;
  - `build_filename`, modelled in `filename.dfy`, module `Filename`;
  - the yt-dlp argument list;
  - the nested loop over artists and tracks with its per-run download
    budget.

  Modelled in `sync.dfy`, module `Sync`.
- **`public/index.php`** is the status page. It covers `read_last_lines`
  (the backward tail scan of a log file), the `run_command` message and
  the configuration panel's flags. Modelled in `dashboard.dfy`, module
  `Dashboard`.

`text.dfy` holds the PHP built-ins the scripts lean on: `strtolower`,
`trim`, `rtrim`, `strrev`, `stripos`, the `(int)` cast and integer-to-string
conversion. It also holds `env_val` (modules `Text` and `Env`).

How the scripts are modelled:

- The filesystem is a set of paths.
- The recursive directory walk is a given sequence of entries.
- ffmpeg, yt-dlp and the YouTube search are oracles (functions given as
  parameters).
- Lidarr's artists and tracks are given as input values.
- A PHP array with string keys is a `PhpArray`: a map, plus its keys in
  insertion order, which is the order `foreach` visits them.

Each loop of the scripts is an imperative method. Each is proved equal to a
fold over the same input (`Scanned`, `ProcessAll`, `Tracks`/`Artists`,
`LastLines`), and the scripts' guarantees are proved as lemmas about those
folds.

Two behaviours of the code are kept as written:

- When the root is missing, the cleanup script logs its start line first and
  only then the error line. `Fragments.Cleanup` logs both.
- `$out` is never reset between ffmpeg calls, so the output logged for a
  failed merge also holds the lines of every earlier merge in the run
  (`Fragments.CapturedOutputAccumulates`).

## Model

| member | source | states |
|---|---|---|
| Text.Lower | cleanup_fragments.php:50 | strtolower keeps the length and lower-cases each ASCII letter, position by position |
| Text.TrimInfix | sync.php:148 | trim() keeps one contiguous infix of its input and every character it cuts away is one of the characters trim strips |
| Text.RTrimSlashCut | sync.php:15 | rtrim($s, '/') keeps a prefix and removes only slashes |
| Text.IntValOfIntToString | sync.php:16 | the (int) cast reads back exactly the integer a decimal rendering wrote |
| Text.LeadingDigitsLongest | sync.php:241 | the digits the (int) cast reads are the longest run of digits at the start |
| Fragments.KindOf | cleanup_fragments.php:45-57 | a directory never enters either map; only files whose lower-cased extension is f137 or f251 do |
| Fragments.ExtensionShape | cleanup_fragments.php:50 | getExtension is the text after the last '.' of the file name, with no '/' or '.' in it; it is empty only when the path ends in '.' or the file name has no '.' |
| Fragments.KindOfFragment | cleanup_fragments.php:50-56 | a file that enters a map is its key followed by '.' and f137 or f251 in any case, the key being the path minus five characters |
| Fragments.KindOfComplete | cleanup_fragments.php:50-56 | conversely, every file that is not a directory and ends in '.' and f137 or f251, in any case, enters the map of that kind |
| Fragments.PhpArray.Put | cleanup_fragments.php:53 | assigning a key keeps the keys distinct and each key paired with a value, and sets that key's value |
| Fragments.PhpArray.PutOrder | cleanup_fragments.php:53 | an existing key keeps its place in the order foreach visits, and a new key goes after all the others |
| Fragments.ScanFragments | cleanup_fragments.php:41-58 | the scan loop builds exactly the two arrays of the scan fold over the walk |
| Fragments.ScannedKeys | cleanup_fragments.php:45-58 | a base is a key of a map iff some walked file of that kind has that base |
| Fragments.ScannedWellKeyed | cleanup_fragments.php:51-56 | every value kept is the fragment of its kind for its own key |
| Fragments.ScannedLastWriterWins | cleanup_fragments.php:51-56 | for duplicate fragments with one key and kind, the map keeps the path of the last one walked |
| Fragments.VideoPassShape | cleanup_fragments.php:63-73 | the first loop gives one outcome per video key, in key order, each matched or video-only as the audio map says |
| Fragments.AudioPassShape | cleanup_fragments.php:109-119 | the second loop gives audio-only outcomes for exactly the audio keys without a video, with distinct bases |
| Fragments.PairingExactlyOnce | cleanup_fragments.php:63-119 | every base in either map gets exactly one outcome, matched if in both, video-only or audio-only otherwise |
| Fragments.MergeLoop | cleanup_fragments.php:63-107 | the first foreach loop leaves the disk, counters, captured output and log of the outcome fold over the video keys |
| Fragments.AudioOrphanLoop | cleanup_fragments.php:109-119 | the second foreach loop continues that fold over the audio keys without a video |
| Fragments.Reconcile | cleanup_fragments.php:63-119 | the two loops together equal the fold over the whole pairing |
| Fragments.StepCounters | cleanup_fragments.php:63-119 | one turn adds one merge exactly when the merge exits 0, one orphan exactly for an unmatched fragment, and appends the muxer's output to $out only for a merge |
| Fragments.ProcessAllAppend | cleanup_fragments.php:63-119 | running the second loop after the first is the fold over the concatenated outcomes |
| Fragments.CountsPartition | cleanup_fragments.php:63-119 | every outcome is exactly one of a merge, a failed merge or an orphan |
| Fragments.ProcessAllCounters | cleanup_fragments.php:60-119 | $mergedCount counts the successful merges, $orphanCount the orphans, and $out gathers every muxer output in order |
| Fragments.PairingCounters | cleanup_fragments.php:60-124 | merged plus failed plus orphans equals the number of distinct bases found |
| Fragments.AllMergedCounters | cleanup_fragments.php:60-124 | when no merge fails, merged plus orphans equals the number of distinct bases found |
| Fragments.OrphanNotices | cleanup_fragments.php:67 | there is one orphan warning per orphan outcome |
| Fragments.FailureReports | cleanup_fragments.php:92-95 | there is one error report per failed merge |
| Fragments.ProcessAllWarnings | cleanup_fragments.php:63-119 | the warnings logged are exactly one per unmatched fragment, in order |
| Fragments.ProcessAllErrors | cleanup_fragments.php:90-97 | the errors logged are exactly one per failed merge, with its exit code and all output captured so far |
| Fragments.ProcessAllLog | cleanup_fragments.php:63-119 | the two statements above together |
| Fragments.CapturedOutputAccumulates | cleanup_fragments.php:90-95 | when a merge that prints "first" succeeds and one that prints "second" fails, the error logged carries both lines |
| Fragments.StepFiles | cleanup_fragments.php:63-119 | one turn adds base.mp4 only after a zero exit, removes both fragments only then, removes an orphan only when orphans are deleted, and changes no other file |
| Fragments.ProcessAllFiles | cleanup_fragments.php:63-119 | the files left are the files before, plus the created outputs, minus the unlinked fragments |
| Fragments.FragmentNotOutput | cleanup_fragments.php:75 | no fragment path is ever a merge output path |
| Fragments.FragmentBase | cleanup_fragments.php:52-56 | a fragment path determines its base |
| Fragments.SeparatedDisjoint | cleanup_fragments.php:63-119 | no unlinked file is a created output |
| Fragments.RemovedByOwner | cleanup_fragments.php:63-119 | a fragment is unlinked only by the turn for its own base |
| Fragments.ProcessAllFate | cleanup_fragments.php:63-119 | after a successful merge the output exists and neither fragment does; a failed merge touches neither fragment; an orphan is gone iff orphans are deleted |
| Fragments.ProcessAllUntouched | cleanup_fragments.php:63-119 | a file that is neither a fragment of the pairing nor a merge output is left as it was |
| Fragments.PairingSeparated | cleanup_fragments.php:45-119 | the outcomes of a scan have distinct bases and name only fragments of their own base |
| Fragments.Cleanup | cleanup_fragments.php:12-124 | a missing root exits 1 having changed nothing and logged only the start and the error; a walk that throws (an unreadable root or subdirectory, uncaught) ends the script with status 255, no file changed and only the start logged; otherwise the run exits 0 with the files and log of the fold, ending with the two counters |
| Filename.BuildFilename | sync.php:149 | the file name always ends in .mp4 |
| Filename.BuildFilenameClean | sync.php:146-149 | the stem before .mp4 holds no forbidden character, no whitespace but single inner spaces, and none at either end |
| Filename.SanitizeIsClean | sync.php:146-148 | the three sanitising steps leave a clean stem |
| Filename.CollapseShape | sync.php:146-147 | after a collapse, each character of the class is the replacement and no two are adjacent |
| Filename.CollapseAppend | sync.php:146 | collapsing distributes over a cut that no run crosses |
| Filename.CollapseRun | sync.php:146 | a whole run of the class becomes the single replacement |
| Filename.CollapseNone | sync.php:146 | text without a character of the class is unchanged |
| Filename.CollapseChars | sync.php:146 | every character of a collapse is the replacement or comes from the input |
| Filename.SanitizeClean | sync.php:146-148 | sanitising a stem that is already clean and trimmed changes nothing |
| Filename.ForbiddenRunExample | sync.php:146 | "/:" between two other characters becomes one "_" |
| Filename.SpaceRunExample | sync.php:147 | a space followed by a tab between two other characters becomes one space |
| Filename.RawStemYear | sync.php:142-145 | with a year the stem is "artist - title (", then text the (int) cast reads back as that year, then ")" |
| Filename.RawStemExample | sync.php:142-145 | for the year 1980 the stem is "artist - title (1980)", and without a year it is "artist - title" |
| Filename.SanitizeExample | sync.php:146-148 | " x/\n" sanitises to "x_" |
| Sync.LoadConfig | sync.php:12-23 | the Lidarr URL and the video root have no trailing slash |
| Sync.ConfigDefaults | sync.php:12-23 | with nothing set: root /videos, budget 3, 3 retries, no dry run, no rename-only run, pipeline on, 1080p |
| Sync.ConfigBudgetRoundTrip | sync.php:16 | a budget written as a decimal number is read back as that number |
| Sync.Queries | sync.php:119-124 | the three queries, in order: "official music video", "music video", then the bare "artist - title" |
| Sync.FirstHitSpec | sync.php:126-138 | there is no URL iff every query prints no id; otherwise the URL carries the id of the first query that prints one |
| Sync.SearchYoutubeUrl | sync.php:118-139 | the search loop returns the first hit of the queries, and logs a warning only when there is none |
| Sync.NamelessArtistIsSkipped | sync.php:219-224 | an artist with neither name falls back to "Unknown Artist" and is always skipped |
| Sync.YearOf | sync.php:239-242 | there is no year exactly when the release date is empty in PHP's sense |
| Sync.YearOfDate | sync.php:240-242 | a date starting with four digits gives the year those digits spell |
| Sync.TargetInRoot | sync.php:244-245 | every target is an .mp4 file directly inside the video root |
| Sync.FormatFor | sync.php:160-163 | the 720p format is chosen iff the quality is exactly "720p", the 1080p format otherwise |
| Sync.YtdlpArgsCarry | sync.php:165-173 | the yt-dlp arguments carry the configured retries, which read back as that number, plus the format, the target and the URL last |
| Sync.RunYtdlp | sync.php:152-193 | success iff yt-dlp exits 0; it logs the download, and the exit code and output on failure |
| Sync.HandleTrack | sync.php:238-275 | the inner loop body below the budget: skip an existing target, count a dry-run track, or search, download and count on success |
| Sync.HandleCounter | sync.php:247-275 | a track adds one to the counter exactly when it is below the budget, its target is new, and it is a dry run or found and downloaded |
| Sync.HandleFacts | sync.php:233-275 | the budget check comes first, and a dry run never searches or downloads |
| Sync.TracksStopped | sync.php:233-236 | once the budget stops the loops, the remaining tracks change nothing |
| Sync.ArtistsStopped | sync.php:233-236 | once the budget stops the loops, the remaining artists change nothing |
| Sync.HandleArtist | sync.php:219-276 | the outer loop body: an unknown artist is skipped; otherwise its tracks are handled until the budget stops both loops |
| Sync.DownloadLoop | sync.php:216-277 | the nested loops leave the counter, files and log of the fold over the artists |
| Sync.EntriesStarts | sync.php:252-275 | each branch logs one "would download" or "download complete" line exactly when it counts a download |
| Sync.EntriesFacts | sync.php:221-275 | a branch only logs lines about the artist being handled, and a branch that neither searches nor downloads logs neither |
| Sync.TrackStepInvariant | sync.php:232-276 | one track keeps the loop invariant: the budget, the counter matching the log, no unknown artist, files only added inside the root, and nothing downloaded in a dry run |
| Sync.TracksInvariant | sync.php:232-276 | the inner loop keeps that invariant |
| Sync.ArtistStepInvariant | sync.php:218-277 | one artist keeps that invariant |
| Sync.ArtistsInvariant | sync.php:218-277 | the outer loop keeps that invariant |
| Sync.DownloadLoopGuarantees | sync.php:216-277 | the counter never passes the budget and equals the downloads the log reports started; the loops stop only at the budget and log that last; no line is about an unknown artist; files are only added, each an .mp4 in the root; a dry run neither searches, downloads nor adds a file |
| Sync.RunConfigured | sync.php:46-279 | the root check, the rename-only exit, then the loop between the start and end lines |
| Sync.RunSync | sync.php:41-279 | without a Lidarr URL or API key the run exits 1 having changed nothing; otherwise it runs as above |
| Dashboard.SplitLines | public/index.php:72-83 | the text splits into at least one line and no line holds a newline |
| Dashboard.JoinSplitLines | public/index.php:63-92 | joining the lines with "\n" gives back the text |
| Dashboard.LastLines | public/index.php:67-89 | at most `$lines` lines are returned, none holding a newline |
| Dashboard.ReadLastLines | public/index.php:52-93 | a missing file gives the one "No log file found yet." line and an unreadable file "Unable to read log file."; otherwise the backward scan returns exactly the last lines of the content |
| Dashboard.NewlineTurn | public/index.php:72-78 | a newline read backwards closes the buffered line, which is the next line from the end |
| Dashboard.BufferTurn | public/index.php:83-84 | a character read backwards extends the buffered piece of the line |
| Dashboard.TailByCount | public/index.php:67 | stopping after `$lines` lines returns the last `$lines` lines |
| Dashboard.TailAtStart | public/index.php:80-89 | reaching the start of the file keeps the first line only when it is not empty |
| Dashboard.LastLinesSuffix | public/index.php:63-92 | the lines returned, joined with "\n", are a suffix of the file |
| Dashboard.LastLinesOfEmpty | public/index.php:68-70 | an empty file gives no lines |
| Dashboard.LastLinesTrailingNewline | public/index.php:72-78 | a file ending in "\n" gives "" as its last line |
| Dashboard.LastLinesWhole | public/index.php:87-92 | a file with no more lines than asked for, and not starting with a newline, is returned whole |
| Dashboard.RunCommand | public/index.php:29-33 | ok iff the exit code is 0; the message is label + " completed." iff the exit code is 0 and label + " failed." otherwise; the output is passed through |
| Dashboard.Config | public/index.php:15-24 | each flag shows Yes/Enabled iff its lower-cased value is "true", and No/Disabled otherwise |
| Dashboard.ConfigDefaultFlags | public/index.php:19-22 | with nothing set, dry run shows No, rename-only Disabled and the ingest Yes |
| Dashboard.ConfigDefaultBudget | public/index.php:18 | with nothing set, the budget shown is 3 |
| Dashboard.FlagIgnoresCase | public/index.php:19 | "TRUE" switches a flag on like "true" |

## Left out

- The HTML page and the POST dispatch of `public/index.php` are user interface. The dispatch only passes a fixed command to `run_command`, which is modelled.
- The Lidarr client (`lidarr_get`, `fetch_artists`, `fetch_tracks_for_artist`) is HTTP and JSON I/O. Its results are given as `Artist` values with their tracks, and `LIDARR_ARTIST_ID` is carried in the configuration but has no effect in the model.
- The command strings and `escapeshellarg` are not modelled. ffmpeg, yt-dlp and the YouTube search are oracles from arguments to exit code and output. A yt-dlp run that exits 0 is taken to leave its file at the target, a failed one to leave none, and an ffmpeg run that exits 0 is taken to write `base.mp4`.
- `log_line` formatting is not modelled: timestamps, upper-cased levels, JSON context, and the writes to stdout and the log file. The log is a sequence of message values with their context.
- The `mkdir` calls and the `is_dir` tests are inputs: `isDir` and `rootReady`.
- The order of `RecursiveDirectoryIterator` is an input: the walk sequence, or nothing when the iterator throws. The message PHP prints for the uncaught exception is not modelled.
- An ffmpeg run that exits non-zero is taken to write nothing. A partial or empty `base.mp4` left by a failed merge is not modelled, and `Fragments.ProcessAllFate` and `Fragments.ProcessAllFiles` rely on this.
- `Sync.SearchId`: `shell_exec` returning `false` is not modelled. Under `strict_types`, `trim(false)` throws a TypeError and ends the run. The search oracle returns only an id text or nothing (null).
- `@unlink` is taken to succeed. A failed deletion, which the script silences and still logs as done, is not modelled.
- The rename-only branch of `sync.php` logs one placeholder line per video file. The model keeps only its first and last lines and its exit 0.
- `ENABLE_LIDARR_PIPELINE` is read into the configuration, but `sync.php` never uses it.
- `filemtime`, `filesize` and the status-page text for the video root are display-only and not modelled.
- `Sync.HandleArtist`: `break 2` is modelled as a `stopped` result that the outer loop obeys, because Dafny cannot break out of the caller's loop.
- `Text.IntVal`: the `(int)` cast does not read exponent or fraction forms such as "1e3", and does not saturate at PHP's 64-bit integer range.
- Strings are sequences of characters. Invalid UTF-8 (where `preg_replace` with `/u` returns null) and multi-byte characters are not modelled, and `strtolower` lower-cases only ASCII letters.
- Negative budgets: `Sync.DownloadLoopGuarantees` states the bound as `Budget`, which is 0 for a negative `MAX_DOWNLOADS_PER_RUN`.
