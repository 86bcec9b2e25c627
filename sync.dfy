/** sync.php: the configuration it reads, the YouTube search with its
    fallback queries, the yt-dlp command line, and the download loop over
    the artists and tracks Lidarr reports, with its per-run budget. */
module Sync {
  import opened Text
  import Env
  import Filename

  // ---------------------------------------------------------------------------
  // Configuration
  // ---------------------------------------------------------------------------

  /** The environment variables the script reads; None when one is unset. */
  datatype Environment = Environment(
    lidarrUrl: Option<string>,
    lidarrApiKey: Option<string>,
    videoRoot: Option<string>,
    maxDownloads: Option<string>,
    dryRun: Option<string>,
    renameOnly: Option<string>,
    videoQuality: Option<string>,
    ytdlpMaxRetries: Option<string>,
    lidarrPipeline: Option<string>,
    lidarrArtistId: Option<string>)

  /** The $config array. */
  datatype Config = Config(
    lidarrUrl: string,
    lidarrApiKey: string,
    videoRoot: Path,
    maxDownloads: int,
    dryRun: bool,
    renameOnly: bool,
    videoQuality: string,
    ytdlpMaxRetries: int,
    lidarrPipeline: bool,
    lidarrArtistId: Option<string>)

  /** $config as the script builds it from the environment. The URL and the
      video root lose their trailing slashes. */
  function LoadConfig(env: Environment): (c: Config)
    ensures c.lidarrUrl == [] || c.lidarrUrl[|c.lidarrUrl| - 1] != '/'
    ensures c.videoRoot == [] || c.videoRoot[|c.videoRoot| - 1] != '/'
  {
    Config(
      RTrimSlash(Env.EnvVal(env.lidarrUrl, "")),
      Env.EnvVal(env.lidarrApiKey, ""),
      RTrimSlash(Env.EnvVal(env.videoRoot, "/videos")),
      IntVal(Env.EnvVal(env.maxDownloads, "3")),
      Env.Flag(env.dryRun, "false"),
      Env.Flag(env.renameOnly, "false"),
      Env.EnvVal(env.videoQuality, "1080p"),
      IntVal(Env.EnvVal(env.ytdlpMaxRetries, "3")),
      Env.Flag(env.lidarrPipeline, "true"),
      env.lidarrArtistId)
  }

  /** With nothing set: videos go to /videos, three downloads per run with
      three retries each, real downloads, no rename-only run, 1080p. */
  lemma ConfigDefaults(env: Environment)
    requires env.videoRoot.None? && env.maxDownloads.None? && env.ytdlpMaxRetries.None?
    requires env.dryRun.None? && env.renameOnly.None? && env.videoQuality.None? && env.lidarrPipeline.None?
    ensures var c := LoadConfig(env);
            && c.videoRoot == "/videos"
            && c.maxDownloads == 3 && c.ytdlpMaxRetries == 3
            && !c.dryRun && !c.renameOnly && c.lidarrPipeline
            && c.videoQuality == "1080p"
  {
    assert NatToString(3) == "3";
    IntValOfIntToString(3);
    assert Lower("false") == "false";
    assert Lower("true") == "true";
  }

  /** A budget written as a decimal number is read back as that number. */
  lemma ConfigBudgetRoundTrip(env: Environment, n: int)
    requires env.maxDownloads == Some(IntToString(n))
    ensures LoadConfig(env).maxDownloads == n
  {
    IntValOfIntToString(n);
  }

  /** The script refuses to start without a Lidarr URL and an API key. */
  predicate Configured(c: Config) {
    c.lidarrUrl != "" && c.lidarrApiKey != ""
  }

  // ---------------------------------------------------------------------------
  // Searching YouTube
  // ---------------------------------------------------------------------------

  /** What `yt-dlp ytsearch1:<term> --get-id` prints for a search term, or
      None when shell_exec returns null. */
  type Search = string -> Option<string>

  const WatchPrefix := "https://www.youtube.com/watch?v="

  /** The queries search_youtube_url tries, in order. */
  function Queries(artist: string, title: string): (qs: seq<string>)
    ensures |qs| == 3
    ensures var base := artist + " - " + title;
            qs[0] == base + " official music video" && qs[1] == base + " music video" && qs[2] == base
  {
    var base := artist + " - " + title;
    [base + " official music video", base + " music video", base]
  }

  /** trim(shell_exec(...) ?? '') for one query. */
  function SearchId(search: Search, q: string): string {
    Trim(match search("ytsearch1:" + q) case Some(out) => out case None => "")
  }

  /** The watch URL of the first query whose search prints an id. */
  function FirstHit(qs: seq<string>, search: Search): Option<string> {
    if qs == [] then None
    else if SearchId(search, qs[0]) != "" then Some(WatchPrefix + SearchId(search, qs[0]))
    else FirstHit(qs[1..], search)
  }

  /** No URL exactly when every query comes back empty; otherwise the URL
      carries the id of the first query that found one. */
  lemma {:induction false} FirstHitSpec(qs: seq<string>, search: Search)
    ensures FirstHit(qs, search).None? <==> forall i :: 0 <= i < |qs| ==> SearchId(search, qs[i]) == ""
    ensures FirstHit(qs, search).Some? ==>
              exists i :: 0 <= i < |qs| && SearchId(search, qs[i]) != ""
                && (forall j :: 0 <= j < i ==> SearchId(search, qs[j]) == "")
                && FirstHit(qs, search).value == WatchPrefix + SearchId(search, qs[i])
  {
    if qs != [] {
      FirstHitSpec(qs[1..], search);
      if SearchId(search, qs[0]) == "" {
        forall i | 1 <= i < |qs| ensures SearchId(search, qs[i]) == SearchId(search, qs[1..][i - 1]) {
        }
        if FirstHit(qs, search).Some? {
          var k :| 0 <= k < |qs[1..]| && SearchId(search, qs[1..][k]) != ""
                   && (forall j :: 0 <= j < k ==> SearchId(search, qs[1..][j]) == "")
                   && FirstHit(qs[1..], search).value == WatchPrefix + SearchId(search, qs[1..][k]);
          assert SearchId(search, qs[k + 1]) != "";
          forall j | 0 <= j < k + 1 ensures SearchId(search, qs[j]) == "" {
            if j > 0 {
              assert qs[j] == qs[1..][j - 1];
            }
          }
        }
      }
    }
  }

  /** The lines the script logs, one constructor per message, with the
      context values the model keeps. */
  datatype Event =
    | NotConfigured
    | RootUnavailable(root: Path)
    | RunStart(root: Path, dryRun: bool, renameOnly: bool, maxDownloads: int)
    | RenameOnlyRequested
    | RenameOnlyFinished
    | FetchedArtists(count: nat)
    | SkippedUnknownArtist(artist: string)
    | FetchedTracks(artist: string, count: nat)
    | CapReached
    | TargetExists(target: Path)
    | WouldDownload(artist: string, title: string, target: Path)
    | NoSearchResult(artist: string, title: string)
    | Downloading(args: seq<string>)
    | DownloadFailed(exitCode: int, output: seq<string>)
    | DownloadComplete(artist: string, title: string, target: Path)
    | RunEnd(downloadsStarted: int)

  /** search_youtube_url($artistName, $trackTitle): tries the queries in
      order and returns at the first that finds an id; a warning is logged
      only when none does. */
  method SearchYoutubeUrl(artist: string, title: string, search: Search) returns (url: Option<string>, events: seq<Event>)
    ensures url == FirstHit(Queries(artist, title), search)
    ensures events == if url.None? then [NoSearchResult(artist, title)] else []
  {
    var qs := Queries(artist, title);
    var i := 0;
    while i < |qs|
      invariant 0 <= i <= |qs|
      invariant FirstHit(qs[i..], search) == FirstHit(qs, search)
    {
      var output := SearchId(search, qs[i]);
      if output != "" {
        return Some(WatchPrefix + output), [];
      }
      assert qs[i..][1..] == qs[i + 1..];
      i := i + 1;
    }
    return None, [NoSearchResult(artist, title)];
  }

  // ---------------------------------------------------------------------------
  // Tracks, file names and the yt-dlp command
  // ---------------------------------------------------------------------------

  /** A track as Lidarr lists it: its title and release date, when present. */
  datatype Track = Track(title: Option<string>, releaseDate: Option<string>)

  /** An artist as Lidarr lists it, with the tracks Lidarr returns for it
      (none when it has no id or the request fails). */
  datatype Artist = Artist(artistName: Option<string>, sortName: Option<string>, tracks: seq<Track>)

  /** $artist['artistName'] ?? $artist['sortName'] ?? 'Unknown Artist' */
  function ArtistName(a: Artist): string {
    match a.artistName
    case Some(n) => n
    case None =>
      match a.sortName
      case Some(n) => n
      case None => "Unknown Artist"
  }

  /** stripos($artistName, 'unknown') !== false */
  predicate IsUnknown(name: string) {
    ContainsIgnoringCase(name, "unknown")
  }

  /** An artist Lidarr sends without any name falls back to "Unknown Artist"
      and so is always skipped. */
  lemma NamelessArtistIsSkipped(a: Artist)
    requires a.artistName.None? && a.sortName.None?
    ensures IsUnknown(ArtistName(a))
  {
    var name := ArtistName(a);
    var low := Lower(name);
    assert low[..7] == "unknown";
    assert Lower("unknown") == "unknown";
    assert OccursAt(Lower("unknown"), low, 0);
  }

  /** $track['title'] ?? 'Unknown Title' */
  function TrackTitle(t: Track): string {
    match t.title
    case Some(s) => s
    case None => "Unknown Title"
  }

  /** PHP's empty() on a string: unset, "" or "0". */
  predicate IsEmptyString(s: Option<string>) {
    s.None? || s.value == "" || s.value == "0"
  }

  /** (int) substr($track['releaseDate'], 0, 4), when the date is not empty. */
  function YearOf(releaseDate: Option<string>): (y: Option<int>)
    ensures y.None? <==> IsEmptyString(releaseDate)
  {
    if IsEmptyString(releaseDate) then None
    else
      var d := releaseDate.value;
      Some(IntVal(if |d| <= 4 then d else d[..4]))
  }

  /** A date starting with four digits gives the year those digits spell. */
  lemma YearOfDate(d: string)
    requires |d| >= 4 && forall i :: 0 <= i < 4 ==> IsDigit(d[i])
    ensures YearOf(Some(d)) == Some(DigitsValue(d[..4]))
  {
    var y := d[..4];
    assert !IsEmptyString(Some(d));
    assert |d| == 4 ==> d == y;
    assert forall i :: 0 <= i < 4 ==> y[i] == d[i];
    assert !IsLeadingSpace(y[0]) && y[0] != '-' && y[0] != '+';
    assert SkipLeadingSpace(y) == y;
    LeadingDigitsAll(y);
    assert IntVal(y) == DigitsValue(y);
  }

  /** $config['video_root'] . '/' . build_filename($artistName, $title, $year) */
  function TargetPath(c: Config, name: string, t: Track): Path {
    c.videoRoot + "/" + Filename.BuildFilename(name, TrackTitle(t), YearOf(t.releaseDate))
  }

  /** `p` names an .mp4 file directly inside `root`. */
  predicate InRoot(root: Path, p: Path) {
    && |p| > |root| + 4
    && p[..|root| + 1] == root + "/"
    && '/' !in p[|root| + 1..]
    && p[|p| - 4..] == ".mp4"
  }

  /** Every target is an .mp4 file directly inside the video root: the
      sanitised name holds no slash. */
  lemma TargetInRoot(c: Config, name: string, t: Track)
    ensures InRoot(c.videoRoot, TargetPath(c, name, t))
  {
    var stem := Filename.Sanitize(Filename.RawStem(name, TrackTitle(t), YearOf(t.releaseDate)));
    var f := stem + ".mp4";
    Filename.SanitizeIsClean(Filename.RawStem(name, TrackTitle(t), YearOf(t.releaseDate)));
    assert forall i :: 0 <= i < |stem| ==> !Filename.IsForbidden(stem[i]);
    assert '/' !in stem;
    assert '/' !in f;
    var p := TargetPath(c, name, t);
    assert p == c.videoRoot + "/" + f;
    assert p[|c.videoRoot| + 1..] == f;
  }

  /** The yt-dlp format: at most 720 lines when the quality asks for 720p,
      at most 1080 otherwise. */
  function FormatFor(quality: string): (f: string)
    ensures f == "bestvideo[height<=720]+bestaudio/best[height<=720]" <==> quality == "720p"
    ensures f == "bestvideo[height<=1080]+bestaudio/best[height<=1080]" <==> quality != "720p"
  {
    if quality == "720p" then "bestvideo[height<=720]+bestaudio/best[height<=720]"
    else "bestvideo[height<=1080]+bestaudio/best[height<=1080]"
  }

  /** The argument list run_ytdlp passes to yt-dlp. */
  function YtdlpArgs(c: Config, url: string, target: Path): seq<string> {
    ["yt-dlp", "--no-part", "--no-warnings", "--retries", IntToString(c.ytdlpMaxRetries),
     "-f", FormatFor(c.videoQuality), "-o", target, url]
  }

  /** The command carries the configured retry count (it reads back as
      that number), the chosen format, the target and the URL, last. */
  lemma YtdlpArgsCarry(c: Config, url: string, target: Path)
    ensures var args := YtdlpArgs(c, url, target);
            && |args| == 10 && args[0] == "yt-dlp"
            && args[3] == "--retries" && IntVal(args[4]) == c.ytdlpMaxRetries
            && args[5] == "-f" && args[6] == FormatFor(c.videoQuality)
            && args[7] == "-o" && args[8] == target
            && args[9] == url
  {
    IntValOfIntToString(c.ytdlpMaxRetries);
  }

  // ---------------------------------------------------------------------------
  // The download loop
  // ---------------------------------------------------------------------------

  /** yt-dlp, from its argument list to what it reports. */
  type Downloader = seq<string> -> ExecResult

  /** The loop's variables: the files present, $downloadsStarted, the log,
      and whether `break 2` has ended both loops. A finished download leaves
      its file at the target path. */
  datatype SyncState = SyncState(disk: set<Path>, started: int, log: seq<Event>, stopped: bool)

  /** How the inner loop body deals with one track. */
  datatype Handling =
    | Capped                                              // the budget is used up: break 2
    | Exists(target: Path)                                // the target is already there
    | Dry(title: string, target: Path)                    // dry run: counted, not downloaded
    | NotFound(title: string)                             // no query found a video
    | Failed(args: seq<string>, result: ExecResult)       // yt-dlp exited non-zero
    | Fetched(title: string, target: Path, args: seq<string>)  // downloaded and counted

  /** Which branch of the inner loop body takes a track of artist `name`
      with the given title and target path. */
  function Handle(c: Config, st: SyncState, name: string, title: string, target: Path,
                  search: Search, download: Downloader): Handling {
    if st.started >= c.maxDownloads then Capped
    else
      if target in st.disk then Exists(target)
      else if c.dryRun then Dry(title, target)
      else
        match FirstHit(Queries(name, title), search)
        case None => NotFound(title)
        case Some(url) =>
          var args := YtdlpArgs(c, url, target);
          var r := download(args);
          if r.exitCode != 0 then Failed(args, r) else Fetched(title, target, args)
  }

  /** The lines each branch logs. */
  function Entries(name: string, h: Handling): seq<Event> {
    match h
    case Capped => [CapReached]
    case Exists(target) => [TargetExists(target)]
    case Dry(title, target) => [WouldDownload(name, title, target)]
    case NotFound(title) => [NoSearchResult(name, title)]
    case Failed(args, r) => [Downloading(args), DownloadFailed(r.exitCode, r.output)]
    case Fetched(title, target, args) => [Downloading(args), DownloadComplete(name, title, target)]
  }

  /** The loop's variables after a branch. */
  function Apply(st: SyncState, name: string, h: Handling): SyncState {
    SyncState(
      if h.Fetched? then st.disk + {h.target} else st.disk,
      if h.Dry? || h.Fetched? then st.started + 1 else st.started,
      st.log + Entries(name, h),
      st.stopped || h.Capped?)
  }

  /** One pass of the inner loop body for track `t` of artist `name`. */
  function TrackStep(c: Config, st: SyncState, name: string, t: Track, search: Search, download: Downloader): SyncState {
    Apply(st, name, Handle(c, st, name, TrackTitle(t), TargetPath(c, name, t), search, download))
  }

  /** The inner loop over an artist's tracks, up to the `break 2`. */
  function Tracks(c: Config, st: SyncState, name: string, ts: seq<Track>, search: Search, download: Downloader): SyncState {
    if ts == [] then st
    else
      var s := Tracks(c, st, name, ts[..|ts| - 1], search, download);
      if s.stopped then s else TrackStep(c, s, name, ts[|ts| - 1], search, download)
  }

  /** One pass of the outer loop body: skip an unknown artist, or log its
      track count and go through its tracks. */
  function ArtistStep(c: Config, st: SyncState, a: Artist, search: Search, download: Downloader): SyncState {
    var name := ArtistName(a);
    if IsUnknown(name) then st.(log := st.log + [SkippedUnknownArtist(name)])
    else Tracks(c, st.(log := st.log + [FetchedTracks(name, |a.tracks|)]), name, a.tracks, search, download)
  }

  /** The outer loop over the artists, up to the `break 2`. */
  function Artists(c: Config, st: SyncState, artists: seq<Artist>, search: Search, download: Downloader): SyncState {
    if artists == [] then st
    else
      var s := Artists(c, st, artists[..|artists| - 1], search, download);
      if s.stopped then s else ArtistStep(c, s, artists[|artists| - 1], search, download)
  }

  function Start(disk: set<Path>): SyncState {
    SyncState(disk, 0, [], false)
  }

  /** Once the loops are stopped, the tracks that follow change nothing. */
  lemma {:induction false} TracksStopped(c: Config, st: SyncState, name: string, ts: seq<Track>, k: nat,
                                         search: Search, download: Downloader)
    requires k <= |ts| && Tracks(c, st, name, ts[..k], search, download).stopped
    ensures Tracks(c, st, name, ts, search, download) == Tracks(c, st, name, ts[..k], search, download)
  {
    if k < |ts| {
      var init := ts[..|ts| - 1];
      assert init[..k] == ts[..k];
      TracksStopped(c, st, name, init, k, search, download);
    } else {
      assert ts[..k] == ts;
    }
  }

  /** Once the loops are stopped, the artists that follow change nothing. */
  lemma {:induction false} ArtistsStopped(c: Config, st: SyncState, artists: seq<Artist>, k: nat,
                                          search: Search, download: Downloader)
    requires k <= |artists| && Artists(c, st, artists[..k], search, download).stopped
    ensures Artists(c, st, artists, search, download) == Artists(c, st, artists[..k], search, download)
  {
    if k < |artists| {
      var init := artists[..|artists| - 1];
      assert init[..k] == artists[..k];
      ArtistsStopped(c, st, init, k, search, download);
    } else {
      assert artists[..k] == artists;
    }
  }

  lemma TracksNext(c: Config, st: SyncState, name: string, ts: seq<Track>, j: nat, search: Search, download: Downloader)
    requires j < |ts| && !Tracks(c, st, name, ts[..j], search, download).stopped
    ensures Tracks(c, st, name, ts[..j + 1], search, download)
         == TrackStep(c, Tracks(c, st, name, ts[..j], search, download), name, ts[j], search, download)
  {
    assert ts[..j + 1][..j] == ts[..j];
  }

  lemma ArtistsNext(c: Config, st: SyncState, artists: seq<Artist>, i: nat, search: Search, download: Downloader)
    requires i < |artists| && !Artists(c, st, artists[..i], search, download).stopped
    ensures Artists(c, st, artists[..i + 1], search, download)
         == ArtistStep(c, Artists(c, st, artists[..i], search, download), artists[i], search, download)
  {
    assert artists[..i + 1][..i] == artists[..i];
  }

  /** The body of the inner loop, below the budget, for a track whose
      title and target path are computed. */
  method HandleTrack(c: Config, disk: set<Path>, started: int, log: seq<Event>, name: string,
                     title: string, targetPath: Path, search: Search, download: Downloader)
    returns (disk': set<Path>, started': int, log': seq<Event>)
    requires started < c.maxDownloads
    ensures var st := SyncState(disk, started, log, false);
            SyncState(disk', started', log', false) == Apply(st, name, Handle(c, st, name, title, targetPath, search, download))
  {
    ghost var st := SyncState(disk, started, log, false);
    ghost var h := Handle(c, st, name, title, targetPath, search, download);
    disk', started', log' := disk, started, log;
    if targetPath in disk {
      log' := log + [TargetExists(targetPath)];
      assert h == Exists(targetPath);
      return;
    }
    if c.dryRun {
      log' := log + [WouldDownload(name, title, targetPath)];
      started' := started + 1;
      assert h == Dry(title, targetPath);
      return;
    }
    var videoUrl, searchEvents := SearchYoutubeUrl(name, title, search);
    log' := log + searchEvents;
    if videoUrl.None? {
      assert h == NotFound(title);
      return;
    }
    var ok, runEvents := RunYtdlp(c, videoUrl.value, targetPath, download);
    log' := log' + runEvents;
    if !ok {
      assert h.Failed?;
      return;
    }
    started' := started + 1;
    disk' := disk + {targetPath};
    log' := log' + [DownloadComplete(name, title, targetPath)];
    assert h == Fetched(title, targetPath, YtdlpArgs(c, videoUrl.value, targetPath));
  }

  /** run_ytdlp($videoUrl, $targetPath): runs yt-dlp with the configured
      retries and format; success is a zero exit code, and a failure is
      logged with the exit code and output. */
  method RunYtdlp(c: Config, url: string, target: Path, download: Downloader) returns (ok: bool, events: seq<Event>)
    ensures var args := YtdlpArgs(c, url, target);
            var r := download(args);
            && (ok <==> r.exitCode == 0)
            && events == [Downloading(args)] + (if ok then [] else [DownloadFailed(r.exitCode, r.output)])
  {
    var format := "bestvideo[height<=1080]+bestaudio/best[height<=1080]";
    if c.videoQuality == "720p" {
      format := "bestvideo[height<=720]+bestaudio/best[height<=720]";
    }
    var args := ["yt-dlp", "--no-part", "--no-warnings", "--retries", IntToString(c.ytdlpMaxRetries),
                 "-f", format, "-o", target, url];
    assert args == YtdlpArgs(c, url, target);
    events := [Downloading(args)];
    var r := download(args);
    if r.exitCode != 0 {
      events := events + [DownloadFailed(r.exitCode, r.output)];
      return false, events;
    }
    assert events + [] == events;
    return true, events;
  }

  /** The body of the outer loop for one artist. `stopped` reports the
      `break 2` at the budget, which the outer loop then obeys. */
  method HandleArtist(c: Config, disk: set<Path>, started: int, log: seq<Event>, artist: Artist,
                      search: Search, download: Downloader)
    returns (disk': set<Path>, started': int, log': seq<Event>, stopped: bool)
    ensures SyncState(disk', started', log', stopped) == ArtistStep(c, SyncState(disk, started, log, false), artist, search, download)
  {
    disk', started', log', stopped := disk, started, log, false;
    var name := ArtistName(artist);
    if IsUnknown(name) {
      log' := log + [SkippedUnknownArtist(name)];
      return;
    }
    var tracks := artist.tracks;
    log' := log + [FetchedTracks(name, |tracks|)];
    ghost var entered := SyncState(disk', started', log', false);
    var j := 0;
    while j < |tracks|
      invariant 0 <= j <= |tracks|
      invariant Tracks(c, entered, name, tracks[..j], search, download) == SyncState(disk', started', log', false)
    {
      TracksNext(c, entered, name, tracks, j, search, download);
      if started' >= c.maxDownloads {
        log' := log' + [CapReached];
        stopped := true;
        TracksStopped(c, entered, name, tracks, j + 1, search, download);
        return;
      }
      var title := TrackTitle(tracks[j]);
      var targetPath := TargetPath(c, name, tracks[j]);
      disk', started', log' := HandleTrack(c, disk', started', log', name, title, targetPath, search, download);
      j := j + 1;
    }
    assert tracks[..j] == tracks;
  }

  /** The main loop of sync.php over the artists, ended early by the
      budget. */
  method DownloadLoop(c: Config, artists: seq<Artist>, files: set<Path>, search: Search, download: Downloader)
    returns (started: int, disk: set<Path>, log: seq<Event>)
    ensures var fin := Artists(c, Start(files), artists, search, download);
            started == fin.started && disk == fin.disk && log == fin.log
  {
    started, disk, log := 0, files, [];
    var i := 0;
    while i < |artists|
      invariant 0 <= i <= |artists|
      invariant Artists(c, Start(files), artists[..i], search, download) == SyncState(disk, started, log, false)
    {
      ArtistsNext(c, Start(files), artists, i, search, download);
      var stopped;
      disk, started, log, stopped := HandleArtist(c, disk, started, log, artists[i], search, download);
      if stopped {
        ArtistsStopped(c, Start(files), artists, i + 1, search, download);
        return;
      }
      i := i + 1;
    }
    assert artists[..i] == artists;
  }

  // ---------------------------------------------------------------------------
  // The whole script
  // ---------------------------------------------------------------------------

  /** sync.php from top to bottom. The environment, whether the video root is
      or can be made a directory, the artists with their tracks, the files
      present, the search and yt-dlp are given; the result is the exit
      status, the files afterwards and the log. */
  method RunSync(env: Environment, rootReady: bool, artists: seq<Artist>, files: set<Path>,
                 search: Search, download: Downloader)
    returns (exitCode: int, disk: set<Path>, log: seq<Event>)
    ensures !Configured(LoadConfig(env)) ==> exitCode == 1 && disk == files && log == [NotConfigured]
    ensures Configured(LoadConfig(env)) ==> (exitCode, disk, log) == Run(LoadConfig(env), rootReady, artists, files, search, download)
  {
    var c := LoadConfig(env);
    if c.lidarrUrl == "" || c.lidarrApiKey == "" {
      return 1, files, [NotConfigured];
    }
    exitCode, disk, log := RunConfigured(c, rootReady, artists, files, search, download);
  }

  /** The outcome of a run once the Lidarr settings are present: exit code,
      files afterwards and log. */
  function Run(c: Config, rootReady: bool, artists: seq<Artist>, files: set<Path>, search: Search, download: Downloader)
    : (int, set<Path>, seq<Event>)
  {
    var start := RunStart(c.videoRoot, c.dryRun, c.renameOnly, c.maxDownloads);
    var fin := Artists(c, Start(files), artists, search, download);
    if !rootReady then (1, files, [RootUnavailable(c.videoRoot)])
    else if c.renameOnly then (0, files, [start, RenameOnlyRequested, RenameOnlyFinished])
    else (0, fin.disk, [start, FetchedArtists(|artists|)] + fin.log + [RunEnd(fin.started)])
  }

  /** The script after its first check: the video root check, the
      rename-only exit, then the download loop between the start and end
      lines. */
  method RunConfigured(c: Config, rootReady: bool, artists: seq<Artist>, files: set<Path>,
                       search: Search, download: Downloader)
    returns (exitCode: int, disk: set<Path>, log: seq<Event>)
    ensures (exitCode, disk, log) == Run(c, rootReady, artists, files, search, download)
  {
    if !rootReady {
      return 1, files, [RootUnavailable(c.videoRoot)];
    }
    log := [RunStart(c.videoRoot, c.dryRun, c.renameOnly, c.maxDownloads)];
    if c.renameOnly {
      log := log + [RenameOnlyRequested, RenameOnlyFinished];
      assert log == [log[0], RenameOnlyRequested, RenameOnlyFinished];
      return 0, files, log;
    }
    log := log + [FetchedArtists(|artists|)];
    assert log == [log[0], FetchedArtists(|artists|)];
    var started, steps;
    started, disk, steps := DownloadLoop(c, artists, files, search, download);
    log := log + steps + [RunEnd(started)];
    exitCode := 0;
  }

  // ---------------------------------------------------------------------------
  // What the loop keeps true
  // ---------------------------------------------------------------------------

  /** The most downloads a run can start: the budget, or none when it is negative. */
  function Budget(c: Config): nat {
    if c.maxDownloads < 0 then 0 else c.maxDownloads
  }

  /** The counter stays within the budget, and the loops stop only at it. */
  ghost predicate WithinBudget(c: Config, st: SyncState) {
    && 0 <= st.started <= Budget(c)
    && (st.stopped ==> st.started >= c.maxDownloads)
  }

  /** The log lines that stand for a started download. */
  predicate IsStart(e: Event) {
    e.WouldDownload? || e.DownloadComplete?
  }

  function Starts(log: seq<Event>): nat {
    if log == [] then 0 else Starts(log[..|log| - 1]) + (if IsStart(log[|log| - 1]) then 1 else 0)
  }

  lemma {:induction false} StartsAppend(a: seq<Event>, b: seq<Event>)
    ensures Starts(a + b) == Starts(a) + Starts(b)
  {
    if b != [] {
      StartsAppend(a, b[..|b| - 1]);
      assert (a + b)[..|a + b| - 1] == a + b[..|b| - 1];
    } else {
      assert a + b == a;
    }
  }

  lemma StartsSmall(x: Event, y: Event)
    ensures Starts([x]) == if IsStart(x) then 1 else 0
    ensures Starts([x, y]) == Starts([x]) + (if IsStart(y) then 1 else 0)
  {
    assert [x][..0] == [];
    assert [x, y][..1] == [x];
  }

  /** The artist a log line names, for the lines written while handling an
      artist that was not skipped. */
  function ArtistOf(e: Event): Option<string> {
    match e
    case FetchedTracks(a, _) => Some(a)
    case WouldDownload(a, _, _) => Some(a)
    case NoSearchResult(a, _) => Some(a)
    case DownloadComplete(a, _, _) => Some(a)
    case _ => None
  }

  /** No line of the log is about an artist whose name contains "unknown". */
  ghost predicate NoUnknownArtist(log: seq<Event>) {
    forall i :: 0 <= i < |log| && ArtistOf(log[i]).Some? ==> !IsUnknown(ArtistOf(log[i]).value)
  }

  /** No line of the log shows a search or a yt-dlp run. */
  ghost predicate NoDownloadIssued(log: seq<Event>) {
    forall i :: 0 <= i < |log| ==> !log[i].Downloading? && !log[i].NoSearchResult?
  }

  /** Files only appear, each an .mp4 directly inside the video root; in a
      dry run none appear and nothing is searched or downloaded. */
  ghost predicate DiskKept(c: Config, files: set<Path>, st: SyncState) {
    && files <= st.disk
    && (forall p :: p in st.disk && p !in files ==> InRoot(c.videoRoot, p))
    && (c.dryRun ==> st.disk == files && NoDownloadIssued(st.log))
  }

  /** Everything the download loop keeps true from its start in `files`. */
  ghost predicate Invariant(c: Config, files: set<Path>, st: SyncState) {
    && WithinBudget(c, st)
    && (st.stopped ==> st.log != [] && st.log[|st.log| - 1] == CapReached)
    && st.started == Starts(st.log)
    && NoUnknownArtist(st.log)
    && DiskKept(c, files, st)
  }

  lemma AppendKeepsLogFacts(log: seq<Event>, es: seq<Event>)
    ensures NoUnknownArtist(log) && NoUnknownArtist(es) ==> NoUnknownArtist(log + es)
    ensures NoDownloadIssued(log) && NoDownloadIssued(es) ==> NoDownloadIssued(log + es)
  {
    forall i | 0 <= i < |log + es|
      ensures (log + es)[i] == if i < |log| then log[i] else es[i - |log|]
    {
    }
  }

  /** A track below the budget counts exactly when its target is new and
      it is either a dry run or found and downloaded; an existing target,
      a failed search and a failed download leave the counter alone. */
  ghost predicate Counted(c: Config, st: SyncState, name: string, title: string, target: Path,
                         search: Search, download: Downloader) {
    var url := FirstHit(Queries(name, title), search);
    && st.started < c.maxDownloads
    && target !in st.disk
    && (c.dryRun || (url.Some? && download(YtdlpArgs(c, url.value, target)).exitCode == 0))
  }

  lemma HandleCounter(c: Config, st: SyncState, name: string, title: string, target: Path,
                      search: Search, download: Downloader)
    ensures var s := Apply(st, name, Handle(c, st, name, title, target, search, download));
            && s.started == st.started + (if Counted(c, st, name, title, target, search, download) then 1 else 0)
            && (s.stopped <==> st.stopped || st.started >= c.maxDownloads)
  {
  }

  /** Each branch counts exactly the downloads its lines report started. */
  lemma ApplyStarts(st: SyncState, name: string, h: Handling)
    requires st.started == Starts(st.log)
    ensures var s := Apply(st, name, h); s.started == Starts(s.log)
  {
    StartsAppend(st.log, Entries(name, h));
    EntriesStarts(name, h);
  }

  lemma EntriesStarts(name: string, h: Handling)
    ensures Starts(Entries(name, h)) == if h.Dry? || h.Fetched? then 1 else 0
  {
    match h
    case Capped => StartsSmall(CapReached, CapReached);
    case Exists(target) => StartsSmall(TargetExists(target), CapReached);
    case Dry(title, target) => StartsSmall(WouldDownload(name, title, target), CapReached);
    case NotFound(title) => StartsSmall(NoSearchResult(name, title), CapReached);
    case Failed(args, r) => StartsSmall(Downloading(args), DownloadFailed(r.exitCode, r.output));
    case Fetched(title, target, args) => StartsSmall(Downloading(args), DownloadComplete(name, title, target));
  }

  /** What each branch logs names only the artist being handled, and a
      branch that neither searches nor downloads logs neither. */
  lemma EntriesFacts(name: string, h: Handling)
    ensures !IsUnknown(name) ==> NoUnknownArtist(Entries(name, h))
    ensures h.Capped? || h.Exists? || h.Dry? ==> NoDownloadIssued(Entries(name, h))
  {
    var es := Entries(name, h);
    forall i | 0 <= i < |es| ensures ArtistOf(es[i]) == None || ArtistOf(es[i]) == Some(name) {
    }
  }

  lemma TrackStepInvariant(c: Config, files: set<Path>, st: SyncState, name: string, t: Track,
                           search: Search, download: Downloader)
    requires Invariant(c, files, st) && !st.stopped && !IsUnknown(name)
    ensures Invariant(c, files, TrackStep(c, st, name, t, search, download))
  {
    var h := Handle(c, st, name, TrackTitle(t), TargetPath(c, name, t), search, download);
    HandleFacts(c, st, name, TrackTitle(t), TargetPath(c, name, t), search, download);
    TargetInRoot(c, name, t);
    ApplyStarts(st, name, h);
    ApplyBudget(c, st, name, h);
    ApplyLog(st, name, h);
    ApplyDisk(c, files, st, name, h);
  }

  /** The branch taken: the budget check comes first, a dry run never
      searches or downloads, and a download goes to the track's target. */
  lemma HandleFacts(c: Config, st: SyncState, name: string, title: string, target: Path,
                    search: Search, download: Downloader)
    ensures var h := Handle(c, st, name, title, target, search, download);
            && (h.Capped? <==> st.started >= c.maxDownloads)
            && (c.dryRun ==> h.Capped? || h.Exists? || h.Dry?)
            && (h.Fetched? ==> h.target == target)
  {
  }

  lemma ApplyBudget(c: Config, st: SyncState, name: string, h: Handling)
    requires WithinBudget(c, st) && !st.stopped
    requires h.Capped? <==> st.started >= c.maxDownloads
    ensures var s := Apply(st, name, h);
            WithinBudget(c, s) && (s.stopped ==> s.log != [] && s.log[|s.log| - 1] == CapReached)
  {
  }

  lemma ApplyLog(st: SyncState, name: string, h: Handling)
    requires NoUnknownArtist(st.log) && !IsUnknown(name)
    ensures NoUnknownArtist(Apply(st, name, h).log)
  {
    EntriesFacts(name, h);
    AppendKeepsLogFacts(st.log, Entries(name, h));
  }

  lemma ApplyDisk(c: Config, files: set<Path>, st: SyncState, name: string, h: Handling)
    requires DiskKept(c, files, st)
    requires h.Fetched? ==> InRoot(c.videoRoot, h.target)
    requires c.dryRun ==> h.Capped? || h.Exists? || h.Dry?
    ensures DiskKept(c, files, Apply(st, name, h))
  {
    if h.Fetched? {
      AddInRoot(c.videoRoot, files, st.disk, h.target);
    }
    if c.dryRun {
      EntriesFacts(name, h);
      AppendKeepsLogFacts(st.log, Entries(name, h));
    }
  }

  /** Adding a file inside the root keeps every new file inside it. */
  lemma AddInRoot(root: Path, files: set<Path>, disk: set<Path>, target: Path)
    requires files <= disk && forall p :: p in disk && p !in files ==> InRoot(root, p)
    requires InRoot(root, target)
    ensures files <= disk + {target} && forall p :: p in disk + {target} && p !in files ==> InRoot(root, p)
  {
  }

  lemma {:induction false} TracksInvariant(c: Config, files: set<Path>, st: SyncState, name: string, ts: seq<Track>,
                                           search: Search, download: Downloader)
    requires Invariant(c, files, st) && !IsUnknown(name)
    ensures Invariant(c, files, Tracks(c, st, name, ts, search, download))
  {
    if ts != [] {
      var s := Tracks(c, st, name, ts[..|ts| - 1], search, download);
      TracksInvariant(c, files, st, name, ts[..|ts| - 1], search, download);
      if !s.stopped {
        TrackStepInvariant(c, files, s, name, ts[|ts| - 1], search, download);
      }
    }
  }

  lemma ArtistStepInvariant(c: Config, files: set<Path>, st: SyncState, a: Artist, search: Search, download: Downloader)
    requires Invariant(c, files, st) && !st.stopped
    ensures Invariant(c, files, ArtistStep(c, st, a, search, download))
  {
    var name := ArtistName(a);
    var e := if IsUnknown(name) then SkippedUnknownArtist(name) else FetchedTracks(name, |a.tracks|);
    var next := st.(log := st.log + [e]);
    assert NoUnknownArtist([e]) && NoDownloadIssued([e]);
    AppendKeepsLogFacts(st.log, [e]);
    StartsAppend(st.log, [e]);
    StartsSmall(e, e);
    assert Invariant(c, files, next);
    if !IsUnknown(name) {
      TracksInvariant(c, files, next, name, a.tracks, search, download);
    }
  }

  lemma {:induction false} ArtistsInvariant(c: Config, files: set<Path>, st: SyncState, artists: seq<Artist>,
                                            search: Search, download: Downloader)
    requires Invariant(c, files, st)
    ensures Invariant(c, files, Artists(c, st, artists, search, download))
  {
    if artists != [] {
      var s := Artists(c, st, artists[..|artists| - 1], search, download);
      ArtistsInvariant(c, files, st, artists[..|artists| - 1], search, download);
      if !s.stopped {
        ArtistStepInvariant(c, files, s, artists[|artists| - 1], search, download);
      }
    }
  }

  /** What a whole run of the download loop guarantees: the counter stays
      within the budget and equals the number of downloads the log reports
      started; stopping happens only at the budget and is logged last; no
      line is about an artist named "unknown"; files only appear, each an
      .mp4 directly inside the video root; and a dry run neither searches,
      downloads nor adds a file. */
  lemma DownloadLoopGuarantees(c: Config, files: set<Path>, artists: seq<Artist>, search: Search, download: Downloader)
    ensures var fin := Artists(c, Start(files), artists, search, download);
            && 0 <= fin.started <= Budget(c)
            && fin.started == Starts(fin.log)
            && (fin.stopped ==> fin.started >= c.maxDownloads && fin.log != [] && fin.log[|fin.log| - 1] == CapReached)
            && NoUnknownArtist(fin.log)
            && files <= fin.disk
            && (forall p :: p in fin.disk && p !in files ==> InRoot(c.videoRoot, p))
            && (c.dryRun ==> fin.disk == files && NoDownloadIssued(fin.log))
  {
    ArtistsInvariant(c, files, Start(files), artists, search, download);
  }
}
