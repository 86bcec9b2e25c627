/** Fragment reconciliation (cleanup_fragments.php): walk the video root,
    collect the video (`.f137`) and audio (`.f251`) fragments keyed by their
    path without the suffix, merge every matched pair with the muxer into
    `<base>.mp4`, and count (and optionally delete) the unmatched ones. */
module Fragments {
  import opened Text
  import Env

  const VideoExt := "f137"
  const AudioExt := "f251"

  /** One item produced by the recursive directory walk. */
  datatype Entry = Entry(path: Path, isDir: bool)

  // ---------------------------------------------------------------------------
  // Configuration and the root check
  // ---------------------------------------------------------------------------

  /** VIDEO_ROOT without trailing slashes (default /videos), and the
      FRAGMENT_DELETE_ORPHANS switch (default false). */
  function VideoRoot(env: Option<string>): Path {
    RTrimSlash(Env.EnvVal(env, "/videos"))
  }

  predicate DeleteOrphans(env: Option<string>) {
    Env.Flag(env, "false")
  }

  // ---------------------------------------------------------------------------
  // Classifying a walked file
  // ---------------------------------------------------------------------------

  function LastIndex(s: string, c: char): (r: int)
    ensures -1 <= r < |s|
  {
    if s == [] then -1
    else if s[|s| - 1] == c then |s| - 1
    else LastIndex(s[..|s| - 1], c)
  }

  /** LastIndex finds the last occurrence of `c`, or -1 when there is none. */
  lemma {:induction false} LastIndexLast(s: string, c: char)
    ensures var r := LastIndex(s, c);
            && (r >= 0 ==> s[r] == c)
            && forall i :: r < i < |s| ==> s[i] != c
  {
    if s != [] && s[|s| - 1] != c {
      LastIndexLast(s[..|s| - 1], c);
    }
  }

  /** SplFileInfo::getExtension: the text after the last '.' of the file name,
      the file name being what follows the last '/'. */
  function Extension(p: Path): (x: string)
    ensures |x| <= |p|
  {
    var start := LastIndex(p, '/') + 1;
    var name := p[start..];
    var dot := LastIndex(name, '.');
    if dot < 0 then [] else p[start + dot + 1..]
  }

  /** The extension is a suffix of the path preceded by '.', and holds no
      '/' and no '.'; it is empty only when the path ends in '.' or the file
      name holds no '.' at all. */
  lemma ExtensionShape(p: Path)
    ensures var x := Extension(p);
            && x == p[|p| - |x|..]
            && (x != [] ==> |x| < |p| && p[|p| - |x| - 1] == '.')
            && forall i :: |p| - |x| <= i < |p| ==> p[i] != '/' && p[i] != '.'
    ensures Extension(p) == [] ==>
              (p != [] && p[|p| - 1] == '.') || forall i :: LastIndex(p, '/') < i < |p| ==> p[i] != '.'
  {
    var start := LastIndex(p, '/') + 1;
    var dot := LastIndex(p[start..], '.');
    if dot < 0 {
      assert p[|p|..] == [];
      NoDotInName(p, start);
    } else {
      ExtensionFound(p, start, dot);
    }
  }

  /** When the file name has no '.', no character after the last '/' is one. */
  lemma NoDotInName(p: Path, start: int)
    requires start == LastIndex(p, '/') + 1 && LastIndex(p[start..], '.') < 0
    ensures forall i :: start <= i < |p| ==> p[i] != '.'
  {
    LastIndexLast(p[start..], '.');
    assert forall i :: start <= i < |p| ==> p[i] == p[start..][i - start];
  }

  /** When the file name holds a '.', what follows the last one is the extension. */
  lemma ExtensionFound(p: Path, start: int, dot: int)
    requires start == LastIndex(p, '/') + 1 && dot == LastIndex(p[start..], '.') && dot >= 0
    ensures var x := p[start + dot + 1..];
            && x == p[|p| - |x|..]
            && |x| < |p| && p[|p| - |x| - 1] == '.'
            && forall i :: |p| - |x| <= i < |p| ==> p[i] != '/' && p[i] != '.'
  {
    var name := p[start..];
    LastIndexLast(p, '/');
    LastIndexLast(name, '.');
    assert p[start + dot] == name[dot];
    ExtensionAfterDot(p, start, dot);
  }

  lemma ExtensionAfterDot(p: Path, start: int, dot: int)
    requires 0 <= start <= |p| && 0 <= dot < |p| - start && p[start + dot] == '.'
    requires forall i :: start <= i < |p| ==> p[i] != '/'
    requires forall i :: dot < i < |p| - start ==> p[start..][i] != '.'
    ensures var x := p[start + dot + 1..];
            && x == p[|p| - |x|..]
            && |x| < |p| && p[|p| - |x| - 1] == '.'
            && forall i :: |p| - |x| <= i < |p| ==> p[i] != '/' && p[i] != '.'
  {
    assert forall i :: start + dot < i < |p| ==> p[i] == p[start..][i - start];
  }

  /** `p` ends in '.' followed by `ext`, compared without case. */
  predicate HasSuffix(p: Path, ext: string) {
    |p| > |ext| && p[|p| - |ext| - 1] == '.' && Lower(p[|p| - |ext|..]) == ext
  }

  /** `p` is the fragment `base` + '.' + ext (ext in any case). */
  predicate FragmentOf(p: Path, base: Path, ext: string) {
    HasSuffix(p, ext) && |p| == |base| + |ext| + 1 && p[..|base|] == base
  }

  datatype Kind = Video | Audio

  function ExtOf(k: Kind): string {
    match k
    case Video => VideoExt
    case Audio => AudioExt
  }

  /** Which map a walked entry enters, if any: directories and files whose
      lower-cased extension is neither f137 nor f251 enter none. */
  function KindOf(e: Entry): (k: Option<Kind>)
    ensures k.Some? ==> !e.isDir && |e.path| >= 5
  {
    if e.isDir then None
    else
      var ext := Lower(Extension(e.path));
      if ext == VideoExt then Some(Video)
      else if ext == AudioExt then Some(Audio)
      else None
  }

  /** A file that enters a map is `<base>.f137` or `<base>.f251`, the
      extension in any case, with `base` its path minus five characters. */
  lemma KindOfFragment(e: Entry)
    requires KindOf(e).Some?
    ensures FragmentOf(e.path, BaseOf(e.path), ExtOf(KindOf(e).value))
  {
    var p, x := e.path, Extension(e.path);
    var ext := ExtOf(KindOf(e).value);
    ExtensionShape(p);
    assert Lower(x) == ext;
    assert |x| == 4;
    assert p[|p| - 4..] == x;
    assert p[..|p| - 5] == BaseOf(p);
  }

  /** Conversely, every file (not a directory) named '.' followed by f137 or
      f251, in any case, enters the map of its kind. */
  lemma KindOfComplete(e: Entry, k: Kind)
    requires !e.isDir && HasSuffix(e.path, ExtOf(k))
    ensures KindOf(e) == Some(k)
  {
    SuffixHasNoSeparator(e.path, k);
    ExtensionOfSuffix(e.path);
  }

  /** The four characters of a fragment suffix are neither '/' nor '.'. */
  lemma SuffixHasNoSeparator(p: Path, k: Kind)
    requires HasSuffix(p, ExtOf(k))
    ensures |p| >= 5 && p[|p| - 5] == '.'
    ensures forall i :: |p| - 4 <= i < |p| ==> p[i] != '/' && p[i] != '.'
  {
    var n := |p|;
    var tail := p[n - 4..];
    assert |ExtOf(k)| == 4;
    forall i | n - 4 <= i < n ensures p[i] != '/' && p[i] != '.' {
      assert tail[i - (n - 4)] == p[i];
      assert Lower(tail)[i - (n - 4)] == LowerChar(p[i]);
    }
  }

  /** A path ending in '.' and four characters that are neither '/' nor '.'
      has those four characters as its extension. */
  lemma ExtensionOfSuffix(p: Path)
    requires |p| >= 5 && p[|p| - 5] == '.'
    requires forall i :: |p| - 4 <= i < |p| ==> p[i] != '/' && p[i] != '.'
    ensures Extension(p) == p[|p| - 4..]
  {
    var n := |p|;
    var start := LastIndex(p, '/') + 1;
    LastIndexLast(p, '/');
    assert start <= n - 5;
    var name := p[start..];
    var dot := LastIndex(name, '.');
    LastIndexLast(name, '.');
    assert name[n - 5 - start] == '.';
    assert forall i :: n - 5 - start < i < |name| ==> name[i] == p[start + i];
    assert dot == n - 5 - start;
  }

  /** substr($path, 0, -strlen('.f137')): the path without its 5-character suffix. */
  function BaseOf(p: Path): Path
    requires |p| >= 5
  {
    p[..|p| - 5]
  }

  /** Entry `e` is a fragment of kind `k` whose base is `b`. */
  predicate Hit(e: Entry, k: Kind, b: Path) {
    KindOf(e) == Some(k) && |e.path| >= 5 && BaseOf(e.path) == b
  }

  // ---------------------------------------------------------------------------
  // PHP arrays with string keys
  // ---------------------------------------------------------------------------

  /** A PHP array with string keys: the values, and the keys in the order in
      which each was first inserted (the order `foreach` visits them). */
  datatype PhpArray = PhpArray(keys: seq<Path>, values: map<Path, Path>) {
    ghost predicate Valid() {
      && (forall i, j :: 0 <= i < j < |keys| ==> keys[i] != keys[j])
      && (forall k :: k in values <==> k in keys)
    }

    /** `$a[$k] = $v`: a new key goes last, an existing key keeps its place
        and takes the new value. */
    function Put(k: Path, v: Path): (r: PhpArray)
      requires Valid()
      ensures r.Valid()
      ensures r.values == values[k := v]
    {
      if k in values then PhpArray(keys, values[k := v]) else PhpArray(keys + [k], values[k := v])
    }

    /** Assignment order: an existing key keeps its place, a new key goes
        after all the others. */
    lemma PutOrder(k: Path, v: Path)
      requires Valid()
      ensures k in values ==> Put(k, v).keys == keys
      ensures k !in values ==> Put(k, v).keys == keys + [k] && |Put(k, v).keys| == |keys| + 1
    {
    }
  }

  const EmptyArray := PhpArray([], map[])

  // ---------------------------------------------------------------------------
  // The scan (cleanup_fragments.php:41-58)
  // ---------------------------------------------------------------------------

  datatype Parts = Parts(video: PhpArray, audio: PhpArray) {
    function Of(k: Kind): PhpArray {
      match k
      case Video => video
      case Audio => audio
    }
  }

  /** Every value of `a` is the fragment of kind `k` for its key. */
  ghost predicate WellKeyed(a: PhpArray, k: Kind) {
    forall b :: b in a.values ==> FragmentOf(a.values[b], b, ExtOf(k))
  }

  /** One turn of the scan loop. */
  function ScanStep(parts: Parts, e: Entry): Parts
    requires parts.video.Valid() && parts.audio.Valid()
  {
    match KindOf(e)
    case None => parts
    case Some(Video) => parts.(video := parts.video.Put(BaseOf(e.path), e.path))
    case Some(Audio) => parts.(audio := parts.audio.Put(BaseOf(e.path), e.path))
  }

  /** The two maps after the scan loop has visited every entry of `walk`. */
  function Scanned(walk: seq<Entry>): (parts: Parts)
    ensures parts.video.Valid() && parts.audio.Valid()
  {
    if walk == [] then Parts(EmptyArray, EmptyArray)
    else ScanStep(Scanned(walk[..|walk| - 1]), walk[|walk| - 1])
  }

  /** Every value kept is the fragment of its kind for its key:
      `<key>.f137` in the video map, `<key>.f251` in the audio map. */
  lemma {:induction false} ScannedWellKeyed(walk: seq<Entry>)
    ensures WellKeyed(Scanned(walk).video, Video) && WellKeyed(Scanned(walk).audio, Audio)
  {
    if walk != [] {
      ScannedWellKeyed(walk[..|walk| - 1]);
      ScanStepWellKeyed(Scanned(walk[..|walk| - 1]), walk[|walk| - 1]);
    }
  }

  lemma ScanStepWellKeyed(parts: Parts, e: Entry)
    requires parts.video.Valid() && parts.audio.Valid()
    requires WellKeyed(parts.video, Video) && WellKeyed(parts.audio, Audio)
    ensures WellKeyed(ScanStep(parts, e).video, Video) && WellKeyed(ScanStep(parts, e).audio, Audio)
  {
    match KindOf(e)
    case None =>
    case Some(k) =>
      KindOfFragment(e);
      PutWellKeyed(parts.Of(k), k, BaseOf(e.path), e.path);
  }

  lemma PutWellKeyed(a: PhpArray, k: Kind, b: Path, p: Path)
    requires a.Valid() && WellKeyed(a, k) && FragmentOf(p, b, ExtOf(k))
    ensures WellKeyed(a.Put(b, p), k)
  {
  }

  /** The scan loop: fills $videoParts and $audioParts in walk order. */
  method ScanFragments(walk: seq<Entry>) returns (videoParts: PhpArray, audioParts: PhpArray)
    ensures Parts(videoParts, audioParts) == Scanned(walk)
  {
    videoParts, audioParts := EmptyArray, EmptyArray;
    for i := 0 to |walk|
      invariant Parts(videoParts, audioParts) == Scanned(walk[..i])
    {
      assert walk[..i + 1][..i] == walk[..i];
      var file := walk[i];
      if file.isDir {
        continue;
      }
      var path := file.path;
      var ext := Lower(Extension(path));
      if ext == VideoExt {
        var base := path[..|path| - 5];
        videoParts := videoParts.Put(base, path);
      } else if ext == AudioExt {
        var base := path[..|path| - 5];
        audioParts := audioParts.Put(base, path);
      }
    }
    assert walk[..|walk|] == walk;
  }

  /** One turn of the scan adds the base of a hit and changes nothing else. */
  lemma ScanStepKeys(parts: Parts, e: Entry, k: Kind, b: Path)
    requires parts.video.Valid() && parts.audio.Valid()
    ensures b in ScanStep(parts, e).Of(k).values <==> b in parts.Of(k).values || Hit(e, k, b)
    ensures b in ScanStep(parts, e).Of(k).values && !Hit(e, k, b) ==>
      ScanStep(parts, e).Of(k).values[b] == parts.Of(k).values[b]
    ensures Hit(e, k, b) ==> ScanStep(parts, e).Of(k).values[b] == e.path
  {
    match KindOf(e)
    case None =>
    case Some(k') =>
      ScanStepOf(parts, e, k');
      if k' != k {
        assert ScanStep(parts, e).Of(k) == parts.Of(k);
      }
  }

  lemma ScanStepOf(parts: Parts, e: Entry, k: Kind)
    requires parts.video.Valid() && parts.audio.Valid()
    requires KindOf(e) == Some(k)
    ensures ScanStep(parts, e).Of(k) == parts.Of(k).Put(BaseOf(e.path), e.path)
  {
  }

  /** A key is in a map iff some walked file of that kind has that base. */
  lemma ScannedKeys(walk: seq<Entry>, k: Kind, b: Path)
    ensures b in Scanned(walk).Of(k).values <==> exists i :: 0 <= i < |walk| && Hit(walk[i], k, b)
  {
    if b in Scanned(walk).Of(k).values {
      ScannedKeyFound(walk, k, b);
    }
    if exists i :: 0 <= i < |walk| && Hit(walk[i], k, b) {
      var i :| 0 <= i < |walk| && Hit(walk[i], k, b);
      ScannedKeyKept(walk, k, b, i);
    }
  }

  /** Every key comes from some walked fragment. */
  lemma {:induction false} ScannedKeyFound(walk: seq<Entry>, k: Kind, b: Path)
    requires b in Scanned(walk).Of(k).values
    ensures exists i :: 0 <= i < |walk| && Hit(walk[i], k, b)
  {
    var n := |walk| - 1;
    var init := walk[..n];
    ScanStepKeys(Scanned(init), walk[n], k, b);
    if !Hit(walk[n], k, b) {
      ScannedKeyFound(init, k, b);
      var i :| 0 <= i < n && Hit(init[i], k, b);
      assert init[i] == walk[i];
    }
  }

  /** The scan of a walk is one more turn after the scan of all but its last entry. */
  lemma ScannedLast(walk: seq<Entry>)
    requires walk != []
    ensures Scanned(walk) == ScanStep(Scanned(walk[..|walk| - 1]), walk[|walk| - 1])
  {
  }

  /** Every walked fragment leaves its base as a key. */
  lemma {:induction false} ScannedKeyKept(walk: seq<Entry>, k: Kind, b: Path, i: int)
    requires 0 <= i < |walk| && Hit(walk[i], k, b)
    ensures b in Scanned(walk).Of(k).values
  {
    var n := |walk| - 1;
    var init := walk[..n];
    ScannedLast(walk);
    if i < n {
      assert init[i] == walk[i];
      ScannedKeyKept(init, k, b, i);
    }
    ScanStepKeys(Scanned(init), walk[n], k, b);
  }

  /** Last writer wins: the value kept for base `b` is the path of the last
      walked fragment of that kind with base `b`. */
  lemma {:induction false} ScannedLastWriterWins(walk: seq<Entry>, k: Kind, b: Path, i: nat)
    requires i < |walk| && Hit(walk[i], k, b)
    requires forall j :: i < j < |walk| ==> !Hit(walk[j], k, b)
    ensures b in Scanned(walk).Of(k).values && Scanned(walk).Of(k).values[b] == walk[i].path
  {
    var n := |walk| - 1;
    if i == n {
      LastTurnHit(walk, k, b);
    } else {
      NoLaterHit(walk, walk[..n], k, b, i);
      ScannedLastWriterWins(walk[..n], k, b, i);
      LastTurnMiss(walk, k, b);
    }
  }

  /** A last turn that is a hit for `b` makes its path the value of `b`. */
  lemma LastTurnHit(walk: seq<Entry>, k: Kind, b: Path)
    requires walk != [] && Hit(walk[|walk| - 1], k, b)
    ensures b in Scanned(walk).Of(k).values && Scanned(walk).Of(k).values[b] == walk[|walk| - 1].path
  {
    ScannedLast(walk);
    ScanStepKeys(Scanned(walk[..|walk| - 1]), walk[|walk| - 1], k, b);
  }

  /** A last turn that is no hit for `b` keeps the value of `b`. */
  lemma LastTurnMiss(walk: seq<Entry>, k: Kind, b: Path)
    requires walk != [] && !Hit(walk[|walk| - 1], k, b)
    requires b in Scanned(walk[..|walk| - 1]).Of(k).values
    ensures b in Scanned(walk).Of(k).values
    ensures Scanned(walk).Of(k).values[b] == Scanned(walk[..|walk| - 1]).Of(k).values[b]
  {
    ScannedLast(walk);
    ScanStepKeys(Scanned(walk[..|walk| - 1]), walk[|walk| - 1], k, b);
  }

  lemma NoLaterHit(walk: seq<Entry>, init: seq<Entry>, k: Kind, b: Path, i: nat)
    requires |walk| > 0 && init == walk[..|walk| - 1]
    requires i < |init| && Hit(walk[i], k, b)
    requires forall j :: i < j < |walk| ==> !Hit(walk[j], k, b)
    ensures Hit(init[i], k, b)
    ensures forall j :: i < j < |init| ==> !Hit(init[j], k, b)
  {
    assert forall j :: 0 <= j < |init| ==> init[j] == walk[j];
  }

  // ---------------------------------------------------------------------------
  // Pairing (the two foreach loops, cleanup_fragments.php:63-119)
  // ---------------------------------------------------------------------------

  /** What happens to one base: the outcome the loops pick for it. */
  datatype Outcome =
    | Matched(base: Path, video: Path, audio: Path)
    | VideoOnly(base: Path, video: Path)
    | AudioOnly(base: Path, audio: Path)

  /** The outcomes of the first loop, over the video keys in order. */
  function VideoPass(keys: seq<Path>, video: map<Path, Path>, audio: map<Path, Path>): (os: seq<Outcome>)
    requires forall b :: b in keys ==> b in video
  {
    if keys == [] then []
    else
      VideoPass(keys[..|keys| - 1], video, audio) + [VideoOutcome(keys[|keys| - 1], video, audio)]
  }

  /** What the first loop does with one video key. */
  function VideoOutcome(b: Path, video: map<Path, Path>, audio: map<Path, Path>): Outcome
    requires b in video
  {
    if b in audio then Matched(b, video[b], audio[b]) else VideoOnly(b, video[b])
  }

  /** The outcomes of the second loop, over the audio keys with no video. */
  function AudioPass(keys: seq<Path>, video: map<Path, Path>, audio: map<Path, Path>): (os: seq<Outcome>)
    requires forall b :: b in keys ==> b in audio
  {
    if keys == [] then []
    else
      var b := keys[|keys| - 1];
      AudioPass(keys[..|keys| - 1], video, audio) + (if b in video then [] else [AudioOnly(b, audio[b])])
  }

  function Pairing(parts: Parts): seq<Outcome>
    requires parts.video.Valid() && parts.audio.Valid()
  {
    var v, a := parts.video, parts.audio;
    VideoPass(v.keys, v.values, a.values) + AudioPass(a.keys, v.values, a.values)
  }

  /** The outcome is the one its base's presence in the two maps calls for. */
  ghost predicate Classified(o: Outcome, video: map<Path, Path>, audio: map<Path, Path>) {
    match o
    case Matched(b, v, a) => b in video && b in audio && v == video[b] && a == audio[b]
    case VideoOnly(b, v) => b in video && b !in audio && v == video[b]
    case AudioOnly(b, a) => b !in video && b in audio && a == audio[b]
  }

  ghost predicate DistinctBases(os: seq<Outcome>) {
    forall i, j :: 0 <= i < j < |os| ==> os[i].base != os[j].base
  }

  function Bases(os: seq<Outcome>): set<Path> {
    set o | o in os :: o.base
  }

  lemma {:induction false} VideoPassShape(keys: seq<Path>, video: map<Path, Path>, audio: map<Path, Path>)
    requires forall b :: b in keys ==> b in video
    ensures |VideoPass(keys, video, audio)| == |keys|
    ensures forall i :: 0 <= i < |keys| ==>
      VideoPass(keys, video, audio)[i].base == keys[i] && Classified(VideoPass(keys, video, audio)[i], video, audio)
  {
    if keys != [] {
      VideoPassShape(keys[..|keys| - 1], video, audio);
    }
  }

  lemma {:induction false} AudioPassShape(keys: seq<Path>, video: map<Path, Path>, audio: map<Path, Path>)
    requires forall b :: b in keys ==> b in audio
    requires forall i, j :: 0 <= i < j < |keys| ==> keys[i] != keys[j]
    ensures DistinctBases(AudioPass(keys, video, audio))
    ensures forall o :: o in AudioPass(keys, video, audio) ==> o.AudioOnly? && o.base in keys && Classified(o, video, audio)
    ensures Bases(AudioPass(keys, video, audio)) == (set b | b in keys && b !in video)
  {
    if keys != [] {
      var init := keys[..|keys| - 1];
      var b := keys[|keys| - 1];
      AudioPassShape(init, video, audio);
      assert b !in init;
      var os := AudioPass(keys, video, audio);
      assert Bases(os) == Bases(AudioPass(init, video, audio)) + (if b in video then {} else {b});
    }
  }

  /** A sequence of outcomes with distinct bases is as long as its set of bases. */
  lemma {:induction false} DistinctBasesCard(os: seq<Outcome>)
    requires DistinctBases(os)
    ensures |Bases(os)| == |os|
  {
    if os != [] {
      var init := os[..|os| - 1];
      DistinctBasesCard(init);
      assert Bases(os) == Bases(init) + {os[|os| - 1].base};
      assert os[|os| - 1].base !in Bases(init);
    }
  }

  lemma PairingDistinct(parts: Parts)
    requires parts.video.Valid() && parts.audio.Valid()
    ensures DistinctBases(Pairing(parts))
  {
    var v, a := parts.video, parts.audio;
    var vp := VideoPass(v.keys, v.values, a.values);
    var ap := AudioPass(a.keys, v.values, a.values);
    VideoPassShape(v.keys, v.values, a.values);
    AudioPassShape(a.keys, v.values, a.values);
    forall i, j | 0 <= i < j < |vp| ensures vp[i].base != vp[j].base {
      assert vp[i].base == v.keys[i] && vp[j].base == v.keys[j];
    }
    forall o | o in vp ensures o.base in v.values {
      var i :| 0 <= i < |vp| && vp[i] == o;
      assert o.base == v.keys[i];
    }
    DistinctConcat(vp, ap, v.values);
  }

  /** Two runs of outcomes with distinct bases stay distinct side by side when
      the first run's bases are all in `m` and the second run's none are. */
  lemma DistinctConcat(xs: seq<Outcome>, ys: seq<Outcome>, m: map<Path, Path>)
    requires DistinctBases(xs) && DistinctBases(ys)
    requires forall o :: o in xs ==> o.base in m
    requires forall o :: o in ys ==> o.base !in m
    ensures DistinctBases(xs + ys)
  {
    var os := xs + ys;
    forall i, j | 0 <= i < j < |os| ensures os[i].base != os[j].base {
      if j < |xs| {
        assert os[i] == xs[i] && os[j] == xs[j];
      } else if i >= |xs| {
        assert os[i] == ys[i - |xs|] && os[j] == ys[j - |xs|];
      } else {
        assert os[i] == xs[i] && os[j] == ys[j - |xs|];
        assert os[i] in xs && os[j] in ys;
      }
    }
  }

  lemma PairingClassified(parts: Parts)
    requires parts.video.Valid() && parts.audio.Valid()
    ensures forall o :: o in Pairing(parts) ==> Classified(o, parts.video.values, parts.audio.values)
    ensures Bases(Pairing(parts)) == parts.video.values.Keys + parts.audio.values.Keys
  {
    var v, a := parts.video, parts.audio;
    var vp := VideoPass(v.keys, v.values, a.values);
    var ap := AudioPass(a.keys, v.values, a.values);
    VideoPassClassified(v.keys, v.values, a.values);
    AudioPassShape(a.keys, v.values, a.values);
    assert Bases(vp + ap) == Bases(vp) + Bases(ap);
  }

  /** Every outcome of the first loop is classified, and its bases are the video keys. */
  lemma VideoPassClassified(keys: seq<Path>, video: map<Path, Path>, audio: map<Path, Path>)
    requires forall b :: b in keys ==> b in video
    ensures forall o :: o in VideoPass(keys, video, audio) ==> Classified(o, video, audio)
    ensures Bases(VideoPass(keys, video, audio)) == set b | b in keys
  {
    var vp := VideoPass(keys, video, audio);
    VideoPassShape(keys, video, audio);
    forall o | o in vp ensures Classified(o, video, audio) && o.base in keys {
      var i :| 0 <= i < |vp| && vp[i] == o;
    }
    forall b | b in keys ensures b in Bases(vp) {
      var i :| 0 <= i < |keys| && keys[i] == b;
      assert vp[i].base == b;
    }
  }

  /** Every base in either map gets exactly one outcome, of the kind its
      presence in the two maps calls for; so there are as many outcomes as
      distinct bases. */
  lemma PairingExactlyOnce(parts: Parts)
    requires parts.video.Valid() && parts.audio.Valid()
    ensures DistinctBases(Pairing(parts))
    ensures forall o :: o in Pairing(parts) ==> Classified(o, parts.video.values, parts.audio.values)
    ensures Bases(Pairing(parts)) == parts.video.values.Keys + parts.audio.values.Keys
    ensures |Pairing(parts)| == |parts.video.values.Keys + parts.audio.values.Keys|
  {
    PairingDistinct(parts);
    PairingClassified(parts);
    DistinctBasesCard(Pairing(parts));
  }

  // ---------------------------------------------------------------------------
  // Merging and orphan handling
  // ---------------------------------------------------------------------------

  /** The muxer (ffmpeg -y -i video -i audio -c copy output), from its three
      paths to what it reports. */
  type Muxer = (Path, Path, Path) -> ExecResult

  /** `$base . '.mp4'` */
  function OutputPath(base: Path): Path {
    base + ".mp4"
  }

  datatype Level = System | Error | Warn | Text

  /** The log lines the script writes (timestamp and JSON rendering left out). */
  datatype LogEntry =
    | CleanupStart(root: Path, deleteOrphans: bool)
    | RootMissing(root: Path)
    | VideoOnlyFragment(video: Path)
    | DeletedOrphanVideo(video: Path)
    | Merging(video: Path, audio: Path, output: Path)
    | MergeFailed(exitCode: int, toolOutput: seq<string>)
    | MergeComplete(video: Path, audio: Path, output: Path)
    | AudioOnlyFragment(audio: Path)
    | DeletedOrphanAudio(audio: Path)
    | CleanupEnd(merged: nat, orphans: nat)
  {
    function Severity(): Level {
      match this
      case CleanupStart(_, _) => System
      case RootMissing(_) => Error
      case VideoOnlyFragment(_) => Warn
      case DeletedOrphanVideo(_) => Text
      case Merging(_, _, _) => Text
      case MergeFailed(_, _) => Error
      case MergeComplete(_, _, _) => System
      case AudioOnlyFragment(_) => Warn
      case DeletedOrphanAudio(_) => Text
      case CleanupEnd(_, _) => System
    }
  }

  /** The script's variables while it handles the outcomes: the files on
      disk, $mergedCount, $orphanCount, the captured muxer output $out
      (never reset between calls) and the log. */
  datatype RunState = RunState(files: set<Path>, merged: nat, orphans: nat, captured: seq<string>, log: seq<LogEntry>)

  function MuxFor(o: Outcome, mux: Muxer): ExecResult
    requires o.Matched?
  {
    mux(o.video, o.audio, OutputPath(o.base))
  }

  predicate Succeeds(o: Outcome, mux: Muxer) {
    o.Matched? && MuxFor(o, mux).exitCode == 0
  }

  predicate Fails(o: Outcome, mux: Muxer) {
    o.Matched? && MuxFor(o, mux).exitCode != 0
  }

  /** The log lines one turn of either loop writes; `captured` is $out
      before the turn. */
  function Entries(o: Outcome, captured: seq<string>, deleteOrphans: bool, mux: Muxer): seq<LogEntry> {
    match o
    case VideoOnly(_, v) =>
      [VideoOnlyFragment(v)] + (if deleteOrphans then [DeletedOrphanVideo(v)] else [])
    case AudioOnly(_, a) =>
      [AudioOnlyFragment(a)] + (if deleteOrphans then [DeletedOrphanAudio(a)] else [])
    case Matched(b, v, a) =>
      var r := mux(v, a, OutputPath(b));
      [Merging(v, a, OutputPath(b))]
        + (if r.exitCode != 0 then [MergeFailed(r.exitCode, captured + r.output)] else [MergeComplete(v, a, OutputPath(b))])
  }

  /** One turn of either loop, for the outcome of one base. */
  function Step(st: RunState, o: Outcome, deleteOrphans: bool, mux: Muxer): RunState {
    var log := st.log + Entries(o, st.captured, deleteOrphans, mux);
    match o
    case VideoOnly(_, v) =>
      st.(files := if deleteOrphans then st.files - {v} else st.files, orphans := st.orphans + 1, log := log)
    case AudioOnly(_, a) =>
      st.(files := if deleteOrphans then st.files - {a} else st.files, orphans := st.orphans + 1, log := log)
    case Matched(b, v, a) =>
      var out := OutputPath(b);
      var r := mux(v, a, out);
      if r.exitCode != 0 then
        st.(captured := st.captured + r.output, log := log)
      else
        st.(files := (st.files + {out}) - {v} - {a}, merged := st.merged + 1, captured := st.captured + r.output, log := log)
  }

  function ProcessAll(os: seq<Outcome>, st: RunState, deleteOrphans: bool, mux: Muxer): RunState {
    if os == [] then st
    else Step(ProcessAll(os[..|os| - 1], st, deleteOrphans, mux), os[|os| - 1], deleteOrphans, mux)
  }

  lemma ProcessAllSnoc(os: seq<Outcome>, o: Outcome, st: RunState, deleteOrphans: bool, mux: Muxer)
    ensures ProcessAll(os + [o], st, deleteOrphans, mux) == Step(ProcessAll(os, st, deleteOrphans, mux), o, deleteOrphans, mux)
  {
    assert (os + [o])[..|os|] == os;
  }

  lemma ProcessAllLast(os: seq<Outcome>, st: RunState, deleteOrphans: bool, mux: Muxer)
    requires os != []
    ensures ProcessAll(os, st, deleteOrphans, mux)
         == Step(ProcessAll(os[..|os| - 1], st, deleteOrphans, mux), os[|os| - 1], deleteOrphans, mux)
  {
  }

  lemma {:induction false} ProcessAllAppend(xs: seq<Outcome>, ys: seq<Outcome>, st: RunState, deleteOrphans: bool, mux: Muxer)
    ensures ProcessAll(xs + ys, st, deleteOrphans, mux) == ProcessAll(ys, ProcessAll(xs, st, deleteOrphans, mux), deleteOrphans, mux)
  {
    if ys == [] {
      assert xs + ys == xs;
    } else {
      var init := ys[..|ys| - 1];
      ProcessAllAppend(xs, init, st, deleteOrphans, mux);
      assert xs + ys == (xs + init) + [ys[|ys| - 1]];
      ProcessAllSnoc(xs + init, ys[|ys| - 1], st, deleteOrphans, mux);
      ProcessAllLast(ys, ProcessAll(xs, st, deleteOrphans, mux), deleteOrphans, mux);
    }
  }

  function Start(files: set<Path>): RunState {
    RunState(files, 0, 0, [], [])
  }

  lemma VideoPassSnoc(keys: seq<Path>, i: nat, video: map<Path, Path>, audio: map<Path, Path>)
    requires i < |keys| && forall b :: b in keys ==> b in video
    ensures VideoPass(keys[..i + 1], video, audio) == VideoPass(keys[..i], video, audio) + [VideoOutcome(keys[i], video, audio)]
  {
    assert keys[..i + 1][..i] == keys[..i];
  }

  lemma AudioPassSnoc(keys: seq<Path>, i: nat, video: map<Path, Path>, audio: map<Path, Path>)
    requires i < |keys| && forall b :: b in keys ==> b in audio
    ensures keys[i] in video ==> AudioPass(keys[..i + 1], video, audio) == AudioPass(keys[..i], video, audio)
    ensures keys[i] !in video ==>
      AudioPass(keys[..i + 1], video, audio) == AudioPass(keys[..i], video, audio) + [AudioOnly(keys[i], audio[keys[i]])]
  {
    assert keys[..i + 1][..i] == keys[..i];
    assert AudioPass(keys[..i], video, audio) + [] == AudioPass(keys[..i], video, audio);
  }

  /** One more video key: one more turn of Step. */
  lemma VideoTurn(keys: seq<Path>, i: nat, video: map<Path, Path>, audio: map<Path, Path>,
                  files: set<Path>, deleteOrphans: bool, mux: Muxer)
    requires i < |keys| && forall b :: b in keys ==> b in video
    ensures ProcessAll(VideoPass(keys[..i + 1], video, audio), Start(files), deleteOrphans, mux)
         == Step(ProcessAll(VideoPass(keys[..i], video, audio), Start(files), deleteOrphans, mux),
                 VideoOutcome(keys[i], video, audio), deleteOrphans, mux)
  {
    VideoPassSnoc(keys, i, video, audio);
    ProcessAllSnoc(VideoPass(keys[..i], video, audio), VideoOutcome(keys[i], video, audio), Start(files), deleteOrphans, mux);
  }

  // Step, one case at a time, for the loops below.

  lemma StepVideoOnly(st: RunState, b: Path, v: Path, deleteOrphans: bool, mux: Muxer)
    ensures Step(st, VideoOnly(b, v), deleteOrphans, mux)
         == if deleteOrphans
            then RunState(st.files - {v}, st.merged, st.orphans + 1, st.captured,
                          st.log + [VideoOnlyFragment(v)] + [DeletedOrphanVideo(v)])
            else RunState(st.files, st.merged, st.orphans + 1, st.captured, st.log + [VideoOnlyFragment(v)])
  {
  }

  lemma StepAudioOnly(st: RunState, b: Path, a: Path, deleteOrphans: bool, mux: Muxer)
    ensures Step(st, AudioOnly(b, a), deleteOrphans, mux)
         == if deleteOrphans
            then RunState(st.files - {a}, st.merged, st.orphans + 1, st.captured,
                          st.log + [AudioOnlyFragment(a)] + [DeletedOrphanAudio(a)])
            else RunState(st.files, st.merged, st.orphans + 1, st.captured, st.log + [AudioOnlyFragment(a)])
  {
  }

  lemma StepMatched(st: RunState, b: Path, v: Path, a: Path, deleteOrphans: bool, mux: Muxer)
    ensures var out := OutputPath(b);
            var r := mux(v, a, out);
            (Step(st, Matched(b, v, a), deleteOrphans, mux)
             == if r.exitCode != 0
                then RunState(st.files, st.merged, st.orphans, st.captured + r.output,
                              st.log + [Merging(v, a, out)] + [MergeFailed(r.exitCode, st.captured + r.output)])
                else RunState(st.files + {out} - {v} - {a}, st.merged + 1, st.orphans, st.captured + r.output,
                              st.log + [Merging(v, a, out)] + [MergeComplete(v, a, out)]))
  {
    var out := OutputPath(b);
    assert st.log + [Merging(v, a, out)] + [MergeFailed(mux(v, a, out).exitCode, st.captured + mux(v, a, out).output)]
        == st.log + [Merging(v, a, out), MergeFailed(mux(v, a, out).exitCode, st.captured + mux(v, a, out).output)];
    assert st.log + [Merging(v, a, out)] + [MergeComplete(v, a, out)]
        == st.log + [Merging(v, a, out), MergeComplete(v, a, out)];
  }

  /** The first foreach loop (over the video keys): merge the pair when the
      audio exists, otherwise count (and maybe delete) a video orphan. */
  method MergeLoop(videoParts: PhpArray, audioParts: PhpArray, files: set<Path>, deleteOrphans: bool, mux: Muxer)
    returns (mergedCount: nat, orphanCount: nat, disk: set<Path>, out: seq<string>, log: seq<LogEntry>)
    requires forall k :: k in videoParts.keys ==> k in videoParts.values
    ensures RunState(disk, mergedCount, orphanCount, out, log)
         == ProcessAll(VideoPass(videoParts.keys, videoParts.values, audioParts.values), Start(files), deleteOrphans, mux)
  {
    var video, audio := videoParts.values, audioParts.values;
    mergedCount, orphanCount, disk, out, log := 0, 0, files, [], [];
    for i := 0 to |videoParts.keys|
      invariant RunState(disk, mergedCount, orphanCount, out, log)
             == ProcessAll(VideoPass(videoParts.keys[..i], video, audio), Start(files), deleteOrphans, mux)
    {
      var base := videoParts.keys[i];
      var videoPath := video[base];
      ghost var before := RunState(disk, mergedCount, orphanCount, out, log);
      VideoTurn(videoParts.keys, i, video, audio, files, deleteOrphans, mux);
      if base !in audio {
        StepVideoOnly(before, base, videoPath, deleteOrphans, mux);
        orphanCount := orphanCount + 1;
        log := log + [VideoOnlyFragment(videoPath)];
        if deleteOrphans {
          disk := disk - {videoPath};
          log := log + [DeletedOrphanVideo(videoPath)];
        }
        assert RunState(disk, mergedCount, orphanCount, out, log)
            == Step(before, VideoOnly(base, videoPath), deleteOrphans, mux);
        continue;
      }
      var audioPath := audio[base];
      StepMatched(before, base, videoPath, audioPath, deleteOrphans, mux);
      var outputPath := base + ".mp4";
      log := log + [Merging(videoPath, audioPath, outputPath)];
      var result := mux(videoPath, audioPath, outputPath);
      out := out + result.output;
      if result.exitCode != 0 {
        log := log + [MergeFailed(result.exitCode, out)];
      } else {
        disk := disk + {outputPath};
        mergedCount := mergedCount + 1;
        disk := disk - {videoPath};
        disk := disk - {audioPath};
        log := log + [MergeComplete(videoPath, audioPath, outputPath)];
      }
      assert RunState(disk, mergedCount, orphanCount, out, log)
          == Step(before, Matched(base, videoPath, audioPath), deleteOrphans, mux);
    }
    assert videoParts.keys[..|videoParts.keys|] == videoParts.keys;
  }

  /** The second foreach loop (over the audio keys): skip a base that has a
      video, otherwise count (and maybe delete) an audio orphan. */
  method AudioOrphanLoop(videoParts: PhpArray, audioParts: PhpArray, deleteOrphans: bool, mux: Muxer,
                         mergedCount: nat, orphans0: nat, disk0: set<Path>, out: seq<string>, log0: seq<LogEntry>)
    returns (orphanCount: nat, disk: set<Path>, log: seq<LogEntry>)
    requires forall k :: k in audioParts.keys ==> k in audioParts.values
    ensures RunState(disk, mergedCount, orphanCount, out, log)
         == ProcessAll(AudioPass(audioParts.keys, videoParts.values, audioParts.values),
                       RunState(disk0, mergedCount, orphans0, out, log0), deleteOrphans, mux)
  {
    var video, audio := videoParts.values, audioParts.values;
    ghost var start := RunState(disk0, mergedCount, orphans0, out, log0);
    ghost var os: seq<Outcome> := [];
    orphanCount, disk, log := orphans0, disk0, log0;
    assert audioParts.keys[..0] == [];
    for j := 0 to |audioParts.keys|
      invariant os == AudioPass(audioParts.keys[..j], video, audio)
      invariant RunState(disk, mergedCount, orphanCount, out, log) == ProcessAll(os, start, deleteOrphans, mux)
    {
      var base := audioParts.keys[j];
      var audioPath := audio[base];
      AudioPassSnoc(audioParts.keys, j, video, audio);
      if base in video {
        continue;
      }
      ghost var before := RunState(disk, mergedCount, orphanCount, out, log);
      ProcessAllSnoc(os, AudioOnly(base, audioPath), start, deleteOrphans, mux);
      StepAudioOnly(before, base, audioPath, deleteOrphans, mux);
      os := os + [AudioOnly(base, audioPath)];
      orphanCount := orphanCount + 1;
      log := log + [AudioOnlyFragment(audioPath)];
      if deleteOrphans {
        disk := disk - {audioPath};
        log := log + [DeletedOrphanAudio(audioPath)];
      }
    }
    assert audioParts.keys[..|audioParts.keys|] == audioParts.keys;
  }

  /** Both loops, in order: the handling of every outcome of the pairing. */
  method Reconcile(videoParts: PhpArray, audioParts: PhpArray, files: set<Path>, deleteOrphans: bool, mux: Muxer)
    returns (mergedCount: nat, orphanCount: nat, disk: set<Path>, out: seq<string>, log: seq<LogEntry>)
    requires videoParts.Valid() && audioParts.Valid()
    ensures RunState(disk, mergedCount, orphanCount, out, log)
         == ProcessAll(Pairing(Parts(videoParts, audioParts)), Start(files), deleteOrphans, mux)
  {
    mergedCount, orphanCount, disk, out, log := MergeLoop(videoParts, audioParts, files, deleteOrphans, mux);
    orphanCount, disk, log := AudioOrphanLoop(videoParts, audioParts, deleteOrphans, mux,
                                              mergedCount, orphanCount, disk, out, log);
    ProcessAllAppend(VideoPass(videoParts.keys, videoParts.values, audioParts.values),
                     AudioPass(audioParts.keys, videoParts.values, audioParts.values),
                     Start(files), deleteOrphans, mux);
  }

  // ---------------------------------------------------------------------------
  // What the two loops add up to
  // ---------------------------------------------------------------------------

  function CountMerged(os: seq<Outcome>, mux: Muxer): nat {
    if os == [] then 0
    else CountMerged(os[..|os| - 1], mux) + (if Succeeds(os[|os| - 1], mux) then 1 else 0)
  }

  function CountFailed(os: seq<Outcome>, mux: Muxer): nat {
    if os == [] then 0
    else CountFailed(os[..|os| - 1], mux) + (if Fails(os[|os| - 1], mux) then 1 else 0)
  }

  function CountOrphans(os: seq<Outcome>): nat {
    if os == [] then 0
    else CountOrphans(os[..|os| - 1]) + (if os[|os| - 1].Matched? then 0 else 1)
  }

  /** Everything the muxer printed over the outcomes, in order. */
  function MuxOutputs(os: seq<Outcome>, mux: Muxer): seq<string> {
    if os == [] then []
    else
      var o := os[|os| - 1];
      MuxOutputs(os[..|os| - 1], mux) + (if o.Matched? then MuxFor(o, mux).output else [])
  }

  /** Every outcome is a merge, a failed merge or an orphan. */
  lemma {:induction false} CountsPartition(os: seq<Outcome>, mux: Muxer)
    ensures CountMerged(os, mux) + CountFailed(os, mux) + CountOrphans(os) == |os|
  {
    if os != [] {
      CountsPartition(os[..|os| - 1], mux);
    }
  }

  /** $mergedCount counts the successful merges, $orphanCount the unmatched
      fragments, and $out holds everything the muxer printed, on top of what
      it held before. */
  lemma ProcessAllCounters(os: seq<Outcome>, st: RunState, deleteOrphans: bool, mux: Muxer)
    ensures ProcessAll(os, st, deleteOrphans, mux).merged == st.merged + CountMerged(os, mux)
    ensures ProcessAll(os, st, deleteOrphans, mux).orphans == st.orphans + CountOrphans(os)
    ensures ProcessAll(os, st, deleteOrphans, mux).captured == st.captured + MuxOutputs(os, mux)
  {
    ProcessAllMerged(os, st, deleteOrphans, mux);
    ProcessAllOrphans(os, st, deleteOrphans, mux);
    ProcessAllCaptured(os, st, deleteOrphans, mux);
  }

  /** What one turn adds to the counters and to the captured output. */
  lemma StepCounters(st: RunState, o: Outcome, deleteOrphans: bool, mux: Muxer)
    ensures Step(st, o, deleteOrphans, mux).merged == st.merged + (if Succeeds(o, mux) then 1 else 0)
    ensures Step(st, o, deleteOrphans, mux).orphans == st.orphans + (if o.Matched? then 0 else 1)
    ensures Step(st, o, deleteOrphans, mux).captured == st.captured + (if o.Matched? then MuxFor(o, mux).output else [])
  {
    if !o.Matched? {
      assert st.captured + [] == st.captured;
    }
  }

  lemma {:induction false} ProcessAllMerged(os: seq<Outcome>, st: RunState, deleteOrphans: bool, mux: Muxer)
    ensures ProcessAll(os, st, deleteOrphans, mux).merged == st.merged + CountMerged(os, mux)
  {
    if os != [] {
      ProcessAllMerged(os[..|os| - 1], st, deleteOrphans, mux);
      StepCounters(ProcessAll(os[..|os| - 1], st, deleteOrphans, mux), os[|os| - 1], deleteOrphans, mux);
    }
  }

  lemma {:induction false} ProcessAllOrphans(os: seq<Outcome>, st: RunState, deleteOrphans: bool, mux: Muxer)
    ensures ProcessAll(os, st, deleteOrphans, mux).orphans == st.orphans + CountOrphans(os)
  {
    if os != [] {
      ProcessAllOrphans(os[..|os| - 1], st, deleteOrphans, mux);
      StepCounters(ProcessAll(os[..|os| - 1], st, deleteOrphans, mux), os[|os| - 1], deleteOrphans, mux);
    }
  }

  lemma {:induction false} ProcessAllCaptured(os: seq<Outcome>, st: RunState, deleteOrphans: bool, mux: Muxer)
    ensures ProcessAll(os, st, deleteOrphans, mux).captured == st.captured + MuxOutputs(os, mux)
  {
    if os != [] {
      var init, o := os[..|os| - 1], os[|os| - 1];
      ProcessAllCaptured(init, st, deleteOrphans, mux);
      StepCounters(ProcessAll(init, st, deleteOrphans, mux), o, deleteOrphans, mux);
      AppendAssoc(st.captured, MuxOutputs(init, mux), if o.Matched? then MuxFor(o, mux).output else []);
    }
  }

  /** The reconciliation's counters: every base found is merged, failed or
      counted as an orphan, exactly once. */
  lemma PairingCounters(parts: Parts, files: set<Path>, deleteOrphans: bool, mux: Muxer)
    requires parts.video.Valid() && parts.audio.Valid()
    ensures var os := Pairing(parts);
            var final := ProcessAll(os, Start(files), deleteOrphans, mux);
            && final.merged == CountMerged(os, mux)
            && final.orphans == CountOrphans(os)
            && final.merged + CountFailed(os, mux) + final.orphans
               == |parts.video.values.Keys + parts.audio.values.Keys|
  {
    var os := Pairing(parts);
    ProcessAllCounters(os, Start(files), deleteOrphans, mux);
    CountsPartition(os, mux);
    PairingExactlyOnce(parts);
  }

  /** With no failed merge, the merges and the orphans together number the
      distinct bases found. */
  lemma AllMergedCounters(parts: Parts, files: set<Path>, deleteOrphans: bool, mux: Muxer)
    requires parts.video.Valid() && parts.audio.Valid()
    requires forall o :: o in Pairing(parts) ==> !Fails(o, mux)
    ensures var final := ProcessAll(Pairing(parts), Start(files), deleteOrphans, mux);
            final.merged + final.orphans == |parts.video.values.Keys + parts.audio.values.Keys|
  {
    PairingCounters(parts, files, deleteOrphans, mux);
    NoFailures(Pairing(parts), mux);
  }

  lemma {:induction false} NoFailures(os: seq<Outcome>, mux: Muxer)
    requires forall o :: o in os ==> !Fails(o, mux)
    ensures CountFailed(os, mux) == 0
  {
    if os != [] {
      assert os[|os| - 1] in os;
      NoFailures(os[..|os| - 1], mux);
    }
  }

  function Warnings(log: seq<LogEntry>): seq<LogEntry> {
    if log == [] then []
    else Warnings(log[..|log| - 1]) + (if log[|log| - 1].Severity() == Warn then [log[|log| - 1]] else [])
  }

  function Errors(log: seq<LogEntry>): seq<LogEntry> {
    if log == [] then []
    else Errors(log[..|log| - 1]) + (if log[|log| - 1].Severity() == Error then [log[|log| - 1]] else [])
  }

  lemma {:induction false} WarningsAppend(a: seq<LogEntry>, b: seq<LogEntry>)
    ensures Warnings(a + b) == Warnings(a) + Warnings(b)
  {
    if b != [] {
      WarningsAppend(a, b[..|b| - 1]);
      assert (a + b)[..|a + b| - 1] == a + b[..|b| - 1];
    } else {
      assert a + b == a;
    }
  }

  lemma {:induction false} ErrorsAppend(a: seq<LogEntry>, b: seq<LogEntry>)
    ensures Errors(a + b) == Errors(a) + Errors(b)
  {
    if b != [] {
      ErrorsAppend(a, b[..|b| - 1]);
      assert (a + b)[..|a + b| - 1] == a + b[..|b| - 1];
    } else {
      assert a + b == a;
    }
  }

  /** The warning the loops write for each unmatched fragment, in order. */
  function OrphanNotices(os: seq<Outcome>): (ws: seq<LogEntry>)
    ensures |ws| == CountOrphans(os)
  {
    if os == [] then []
    else
      OrphanNotices(os[..|os| - 1])
        + match os[|os| - 1]
          case VideoOnly(_, v) => [VideoOnlyFragment(v)]
          case AudioOnly(_, a) => [AudioOnlyFragment(a)]
          case Matched(_, _, _) => []
  }

  /** The error the first loop writes for each failed merge: its exit code
      and the whole of $out at that point, which still holds the lines of
      every earlier merge (`captured` is what $out held before). */
  function FailureReports(os: seq<Outcome>, captured: seq<string>, mux: Muxer): (es: seq<LogEntry>)
    ensures |es| == CountFailed(os, mux)
  {
    if os == [] then []
    else
      var o := os[|os| - 1];
      FailureReports(os[..|os| - 1], captured, mux)
        + (if Fails(o, mux) then [MergeFailed(MuxFor(o, mux).exitCode, captured + MuxOutputs(os, mux))] else [])
  }

  lemma Filters1(x: LogEntry)
    ensures Warnings([x]) == if x.Severity() == Warn then [x] else []
    ensures Errors([x]) == if x.Severity() == Error then [x] else []
  {
    assert [x][..0] == [];
  }

  lemma Filters2(x: LogEntry, y: LogEntry)
    ensures Warnings([x] + [y]) == Warnings([x]) + Warnings([y])
    ensures Errors([x] + [y]) == Errors([x]) + Errors([y])
  {
    WarningsAppend([x], [y]);
    ErrorsAppend([x], [y]);
  }

  lemma OrphanFilters(x: LogEntry, y: LogEntry, deleteOrphans: bool)
    requires x.Severity() == Warn && y.Severity() == Text
    ensures Warnings([x] + (if deleteOrphans then [y] else [])) == [x]
    ensures Errors([x] + (if deleteOrphans then [y] else [])) == []
  {
    Filters1(x);
    if deleteOrphans {
      Filters1(y);
      Filters2(x, y);
    } else {
      assert [x] + [] == [x];
    }
  }

  lemma MergeFilters(x: LogEntry, y: LogEntry, z: LogEntry, failed: bool)
    requires x.Severity() == Text && y.Severity() == Error && z.Severity() == System
    ensures Warnings([x] + (if failed then [y] else [z])) == []
    ensures Errors([x] + (if failed then [y] else [z])) == if failed then [y] else []
  {
    Filters1(x);
    Filters1(y);
    Filters1(z);
    Filters2(x, y);
    Filters2(x, z);
  }

  /** Of one turn's lines, the warning is the orphan notice and the error
      the failure report. */
  lemma EntriesFilters(o: Outcome, captured: seq<string>, deleteOrphans: bool, mux: Muxer)
    ensures Warnings(Entries(o, captured, deleteOrphans, mux)) == OrphanNotices([o])
    ensures Errors(Entries(o, captured, deleteOrphans, mux))
         == if Fails(o, mux) then [MergeFailed(MuxFor(o, mux).exitCode, captured + MuxFor(o, mux).output)] else []
  {
    assert [o][..0] == [];
    match o
    case VideoOnly(_, v) =>
      OrphanFilters(VideoOnlyFragment(v), DeletedOrphanVideo(v), deleteOrphans);
    case AudioOnly(_, a) =>
      OrphanFilters(AudioOnlyFragment(a), DeletedOrphanAudio(a), deleteOrphans);
    case Matched(b, v, a) =>
      var r := MuxFor(o, mux);
      MergeFilters(Merging(v, a, OutputPath(b)), MergeFailed(r.exitCode, captured + r.output),
                   MergeComplete(v, a, OutputPath(b)), r.exitCode != 0);
  }

  lemma StepWarnings(st: RunState, o: Outcome, deleteOrphans: bool, mux: Muxer)
    ensures Warnings(Step(st, o, deleteOrphans, mux).log) == Warnings(st.log) + OrphanNotices([o])
  {
    var added := Entries(o, st.captured, deleteOrphans, mux);
    WarningsAppend(st.log, added);
    EntriesFilters(o, st.captured, deleteOrphans, mux);
  }

  lemma StepErrors(st: RunState, o: Outcome, deleteOrphans: bool, mux: Muxer)
    ensures Errors(Step(st, o, deleteOrphans, mux).log)
         == Errors(st.log) + (if Fails(o, mux) then [MergeFailed(MuxFor(o, mux).exitCode, st.captured + MuxFor(o, mux).output)] else [])
  {
    var added := Entries(o, st.captured, deleteOrphans, mux);
    ErrorsAppend(st.log, added);
    EntriesFilters(o, st.captured, deleteOrphans, mux);
  }

  /** The last outcome's orphan notice comes after the others'. */
  lemma OrphanNoticesLast(os: seq<Outcome>)
    requires os != []
    ensures OrphanNotices(os) == OrphanNotices(os[..|os| - 1]) + OrphanNotices([os[|os| - 1]])
  {
    OrphanNoticeSingle(os[|os| - 1]);
  }

  lemma OrphanNoticeSingle(o: Outcome)
    ensures OrphanNotices([o]) == match o
      case VideoOnly(_, v) => [VideoOnlyFragment(v)]
      case AudioOnly(_, a) => [AudioOnlyFragment(a)]
      case Matched(_, _, _) => []
  {
    assert [o][..0] == [];
  }

  lemma FailureReportsSingle(o: Outcome, captured: seq<string>, mux: Muxer)
    ensures FailureReports([o], captured, mux)
         == if Fails(o, mux) then [MergeFailed(MuxFor(o, mux).exitCode, captured + MuxFor(o, mux).output)] else []
  {
    assert [o][..0] == [];
    assert MuxOutputs([o], mux) == if o.Matched? then MuxFor(o, mux).output else [];
  }

  /** The last outcome's failure report carries everything captured before it. */
  lemma FailureReportsLast(os: seq<Outcome>, captured: seq<string>, mux: Muxer)
    requires os != []
    ensures FailureReports(os, captured, mux)
         == FailureReports(os[..|os| - 1], captured, mux)
          + FailureReports([os[|os| - 1]], captured + MuxOutputs(os[..|os| - 1], mux), mux)
  {
    var init, o := os[..|os| - 1], os[|os| - 1];
    FailureReportsSingle(o, captured + MuxOutputs(init, mux), mux);
    AppendAssoc(captured, MuxOutputs(init, mux), if o.Matched? then MuxFor(o, mux).output else []);
  }

  lemma WarningsLast(os: seq<Outcome>, st: RunState, deleteOrphans: bool, mux: Muxer)
    requires os != []
    requires Warnings(ProcessAll(os[..|os| - 1], st, deleteOrphans, mux).log)
          == Warnings(st.log) + OrphanNotices(os[..|os| - 1])
    ensures Warnings(ProcessAll(os, st, deleteOrphans, mux).log) == Warnings(st.log) + OrphanNotices(os)
  {
    var init, o := os[..|os| - 1], os[|os| - 1];
    StepWarnings(ProcessAll(init, st, deleteOrphans, mux), o, deleteOrphans, mux);
    OrphanNoticesLast(os);
    AppendAssoc(Warnings(st.log), OrphanNotices(init), OrphanNotices([o]));
  }

  lemma ErrorsLast(os: seq<Outcome>, st: RunState, deleteOrphans: bool, mux: Muxer)
    requires os != []
    requires Errors(ProcessAll(os[..|os| - 1], st, deleteOrphans, mux).log)
          == Errors(st.log) + FailureReports(os[..|os| - 1], st.captured, mux)
    ensures Errors(ProcessAll(os, st, deleteOrphans, mux).log) == Errors(st.log) + FailureReports(os, st.captured, mux)
  {
    var init, o := os[..|os| - 1], os[|os| - 1];
    var mid := ProcessAll(init, st, deleteOrphans, mux);
    ProcessAllCaptured(init, st, deleteOrphans, mux);
    var e1 := if Fails(o, mux) then [MergeFailed(MuxFor(o, mux).exitCode, mid.captured + MuxFor(o, mux).output)] else [];
    StepErrors(mid, o, deleteOrphans, mux);
    FailureReportsLast(os, st.captured, mux);
    FailureReportsSingle(o, st.captured + MuxOutputs(init, mux), mux);
    AppendAssoc(Errors(st.log), FailureReports(init, st.captured, mux), e1);
  }

  /** The warnings are exactly one per unmatched fragment, in order; the
      errors are exactly one per failed merge, each carrying all muxer output
      captured so far. */
  lemma ProcessAllLog(os: seq<Outcome>, st: RunState, deleteOrphans: bool, mux: Muxer)
    ensures Warnings(ProcessAll(os, st, deleteOrphans, mux).log) == Warnings(st.log) + OrphanNotices(os)
    ensures Errors(ProcessAll(os, st, deleteOrphans, mux).log) == Errors(st.log) + FailureReports(os, st.captured, mux)
  {
    ProcessAllWarnings(os, st, deleteOrphans, mux);
    ProcessAllErrors(os, st, deleteOrphans, mux);
  }

  lemma {:induction false} ProcessAllWarnings(os: seq<Outcome>, st: RunState, deleteOrphans: bool, mux: Muxer)
    ensures Warnings(ProcessAll(os, st, deleteOrphans, mux).log) == Warnings(st.log) + OrphanNotices(os)
  {
    if os == [] {
      assert Warnings(st.log) + [] == Warnings(st.log);
    } else {
      ProcessAllWarnings(os[..|os| - 1], st, deleteOrphans, mux);
      WarningsLast(os, st, deleteOrphans, mux);
    }
  }

  lemma {:induction false} ProcessAllErrors(os: seq<Outcome>, st: RunState, deleteOrphans: bool, mux: Muxer)
    ensures Errors(ProcessAll(os, st, deleteOrphans, mux).log) == Errors(st.log) + FailureReports(os, st.captured, mux)
  {
    if os == [] {
      assert Errors(st.log) + [] == Errors(st.log);
    } else {
      ProcessAllErrors(os[..|os| - 1], st, deleteOrphans, mux);
      ErrorsLast(os, st, deleteOrphans, mux);
    }
  }

  /** A concrete run showing that $out is never reset: the first merge
      succeeds printing "first", the second fails printing "second", and the
      error logged for the second carries both lines. */
  lemma CapturedOutputAccumulates()
    ensures var mux: Muxer := (v: Path, a: Path, o: Path) =>
              if v == "/v/a.f137" then ExecResult(0, ["first"]) else ExecResult(1, ["second"]);
            var os := [Matched("/v/a", "/v/a.f137", "/v/a.f251"), Matched("/v/b", "/v/b.f137", "/v/b.f251")];
            Errors(ProcessAll(os, Start({}), false, mux).log) == [MergeFailed(1, ["first", "second"])]
  {
    var mux: Muxer := (v: Path, a: Path, o: Path) =>
      if v == "/v/a.f137" then ExecResult(0, ["first"]) else ExecResult(1, ["second"]);
    var o1, o2 := Matched("/v/a", "/v/a.f137", "/v/a.f251"), Matched("/v/b", "/v/b.f137", "/v/b.f251");
    var os := [o1, o2];
    ProcessAllLog(os, Start({}), false, mux);
    assert Errors([]) == [];
    assert os[..1] == [o1] && [o1][..0] == [];
    assert "/v/b.f137" != "/v/a.f137" by {
      assert "/v/b.f137"[3] != "/v/a.f137"[3];
    }
    assert MuxOutputs([o1], mux) == ["first"];
    assert MuxOutputs(os, mux) == ["first", "second"];
    assert FailureReports([o1], [], mux) == [];
  }

  // ---------------------------------------------------------------------------
  // The files on disk
  // ---------------------------------------------------------------------------

  /** The fragment files an outcome names. */
  function Frags(o: Outcome): set<Path> {
    match o
    case Matched(_, v, a) => {v, a}
    case VideoOnly(_, v) => {v}
    case AudioOnly(_, a) => {a}
  }

  /** The file one turn creates: the merged output, on success only. */
  function StepCreated(o: Outcome, mux: Muxer): set<Path> {
    if Succeeds(o, mux) then {OutputPath(o.base)} else {}
  }

  /** The files one turn unlinks: both fragments after a successful merge,
      the orphan when orphans are deleted, nothing after a failed merge. */
  function StepRemoved(o: Outcome, deleteOrphans: bool, mux: Muxer): set<Path> {
    if Succeeds(o, mux) || (deleteOrphans && !o.Matched?) then Frags(o) else {}
  }

  lemma StepFiles(st: RunState, o: Outcome, deleteOrphans: bool, mux: Muxer)
    ensures Step(st, o, deleteOrphans, mux).files == st.files + StepCreated(o, mux) - StepRemoved(o, deleteOrphans, mux)
  {
  }

  ghost function Created(os: seq<Outcome>, mux: Muxer): set<Path> {
    set o, p | o in os && p in StepCreated(o, mux) :: p
  }

  ghost function Removed(os: seq<Outcome>, deleteOrphans: bool, mux: Muxer): set<Path> {
    set o, p | o in os && p in StepRemoved(o, deleteOrphans, mux) :: p
  }

  /** The files left are the files before, plus the outputs created, minus the
      fragments unlinked, as long as no output is also unlinked. */
  lemma {:induction false} ProcessAllFiles(os: seq<Outcome>, st: RunState, deleteOrphans: bool, mux: Muxer)
    requires Created(os, mux) !! Removed(os, deleteOrphans, mux)
    ensures ProcessAll(os, st, deleteOrphans, mux).files == st.files + Created(os, mux) - Removed(os, deleteOrphans, mux)
  {
    if os != [] {
      var init, o := os[..|os| - 1], os[|os| - 1];
      assert os == init + [o];
      assert Created(os, mux) == Created(init, mux) + StepCreated(o, mux);
      assert Removed(os, deleteOrphans, mux) == Removed(init, deleteOrphans, mux) + StepRemoved(o, deleteOrphans, mux);
      ProcessAllFiles(init, st, deleteOrphans, mux);
      StepFiles(ProcessAll(init, st, deleteOrphans, mux), o, deleteOrphans, mux);
    }
  }

  predicate IsFragment(p: Path, b: Path) {
    FragmentOf(p, b, VideoExt) || FragmentOf(p, b, AudioExt)
  }

  /** A fragment path determines its base. */
  lemma FragmentBase(p: Path, b1: Path, b2: Path)
    requires IsFragment(p, b1) && IsFragment(p, b2)
    ensures b1 == b2
  {
    assert b1 == p[..|b1|];
  }

  /** No fragment is ever a merge output: the fourth character from the end
      is an 'f' (in either case) in the one and a '.' in the other. */
  lemma FragmentNotOutput(p: Path, b: Path, b2: Path)
    requires IsFragment(p, b)
    ensures p != OutputPath(b2)
  {
    var tail := p[|p| - 4..];
    assert Lower(tail)[0] == LowerChar(tail[0]) == 'f';
  }

  /** Outcomes with distinct bases, each naming fragments of its own base. */
  ghost predicate Separated(os: seq<Outcome>) {
    && DistinctBases(os)
    && forall o, p :: o in os && p in Frags(o) ==> IsFragment(p, o.base)
  }

  lemma SameBase(os: seq<Outcome>, o1: Outcome, o2: Outcome)
    requires DistinctBases(os) && o1 in os && o2 in os && o1.base == o2.base
    ensures o1 == o2
  {
    var i :| 0 <= i < |os| && os[i] == o1;
    var j :| 0 <= j < |os| && os[j] == o2;
    assert !(i < j) && !(j < i);
  }

  lemma SeparatedDisjoint(os: seq<Outcome>, deleteOrphans: bool, mux: Muxer)
    requires Separated(os)
    ensures Created(os, mux) !! Removed(os, deleteOrphans, mux)
  {
    forall p | p in Removed(os, deleteOrphans, mux) ensures p !in Created(os, mux) {
      var o :| o in os && p in StepRemoved(o, deleteOrphans, mux);
      forall o2 | o2 in os && p in StepCreated(o2, mux) ensures false {
        FragmentNotOutput(p, o.base, o2.base);
      }
    }
  }

  /** A fragment of outcome `o` is unlinked by no other outcome. */
  lemma RemovedByOwner(os: seq<Outcome>, o: Outcome, p: Path, deleteOrphans: bool, mux: Muxer)
    requires Separated(os) && o in os && p in Frags(o)
    ensures p !in Created(os, mux)
    ensures p in Removed(os, deleteOrphans, mux) <==> p in StepRemoved(o, deleteOrphans, mux)
  {
    SeparatedDisjoint(os, deleteOrphans, mux);
    forall o2 | o2 in os && p in StepCreated(o2, mux) ensures false {
      FragmentNotOutput(p, o.base, o2.base);
    }
    if p in Removed(os, deleteOrphans, mux) {
      var o2 :| o2 in os && p in StepRemoved(o2, deleteOrphans, mux);
      FragmentBase(p, o.base, o2.base);
      SameBase(os, o, o2);
    }
  }

  /** What becomes of each outcome's files: a successful merge leaves the
      output and neither fragment; a failed merge touches neither fragment
      (nothing is deleted before the muxer succeeds); an orphan is gone
      exactly when orphans are deleted. */
  lemma ProcessAllFate(os: seq<Outcome>, st: RunState, deleteOrphans: bool, mux: Muxer, o: Outcome)
    requires Separated(os) && o in os
    ensures var files := ProcessAll(os, st, deleteOrphans, mux).files;
            && (Succeeds(o, mux) ==> OutputPath(o.base) in files && Frags(o) !! files)
            && (Fails(o, mux) ==> forall p :: p in Frags(o) ==> (p in files <==> p in st.files))
            && (!o.Matched? ==> forall p :: p in Frags(o) ==> (p in files <==> p in st.files && !deleteOrphans))
  {
    SeparatedDisjoint(os, deleteOrphans, mux);
    ProcessAllFiles(os, st, deleteOrphans, mux);
    forall p | p in Frags(o) {
      RemovedByOwner(os, o, p, deleteOrphans, mux);
    }
    if Succeeds(o, mux) {
      var out := OutputPath(o.base);
      assert out in Created(os, mux) by {
        assert out in StepCreated(o, mux);
      }
    }
  }

  /** Files that are neither a fragment of the pairing nor one of its merge
      outputs are left as they were. */
  lemma ProcessAllUntouched(os: seq<Outcome>, st: RunState, deleteOrphans: bool, mux: Muxer, p: Path)
    requires Separated(os)
    requires forall o :: o in os ==> p !in Frags(o) && p != OutputPath(o.base)
    ensures p in ProcessAll(os, st, deleteOrphans, mux).files <==> p in st.files
  {
    SeparatedDisjoint(os, deleteOrphans, mux);
    ProcessAllFiles(os, st, deleteOrphans, mux);
  }

  /** The pairing of a scan is separated: distinct bases, and every path it
      names is `<base>.f137` or `<base>.f251` for its own base. */
  lemma PairingSeparated(walk: seq<Entry>)
    ensures Separated(Pairing(Scanned(walk)))
  {
    var parts := Scanned(walk);
    var os := Pairing(parts);
    PairingExactlyOnce(parts);
    ScannedWellKeyed(walk);
    forall o | o in os ensures forall p :: p in Frags(o) ==> IsFragment(p, o.base) {
      OutcomeFragments(o, parts);
    }
  }

  /** The paths an outcome names are fragments of its base, when it was
      classified against well-keyed maps. */
  lemma OutcomeFragments(o: Outcome, parts: Parts)
    requires WellKeyed(parts.video, Video) && WellKeyed(parts.audio, Audio)
    requires Classified(o, parts.video.values, parts.audio.values)
    ensures forall p :: p in Frags(o) ==> IsFragment(p, o.base)
  {
    var video, audio := parts.video.values, parts.audio.values;
    match o
    case Matched(b, v, a) =>
      assert FragmentOf(video[b], b, VideoExt) && FragmentOf(audio[b], b, AudioExt);
    case VideoOnly(b, v) =>
      assert FragmentOf(video[b], b, VideoExt);
    case AudioOnly(b, a) =>
      assert FragmentOf(audio[b], b, AudioExt);
  }

  // ---------------------------------------------------------------------------
  // The whole script
  // ---------------------------------------------------------------------------

  /** The exit status of a PHP script ended by an uncaught exception. */
  const UncaughtExit := 255

  /** cleanup_fragments.php from top to bottom. The environment values, the
      directory test, the recursive walk of the root and the muxer are given;
      the result is the exit status, the files left and the log. The walk is
      None when RecursiveDirectoryIterator throws UnexpectedValueException
      (the root or a directory below it cannot be opened): nothing catches
      it, so the script dies there, before any merge. */
  method Cleanup(rootEnv: Option<string>, deleteEnv: Option<string>, isDir: Path -> bool,
                 walk: Option<seq<Entry>>, files: set<Path>, mux: Muxer)
    returns (exitCode: int, disk: set<Path>, log: seq<LogEntry>)
    ensures var root := VideoRoot(rootEnv);
            !isDir(root) ==>
              exitCode == 1 && disk == files && log == [CleanupStart(root, DeleteOrphans(deleteEnv)), RootMissing(root)]
    ensures var root := VideoRoot(rootEnv);
            isDir(root) && walk.None? ==>
              exitCode == UncaughtExit && disk == files && log == [CleanupStart(root, DeleteOrphans(deleteEnv))]
    ensures var root, deleteOrphans := VideoRoot(rootEnv), DeleteOrphans(deleteEnv);
            isDir(root) && walk.Some? ==>
              var fin := ProcessAll(Pairing(Scanned(walk.value)), Start(files), deleteOrphans, mux);
              && exitCode == 0
              && disk == fin.files
              && log == [CleanupStart(root, deleteOrphans)] + fin.log + [CleanupEnd(fin.merged, fin.orphans)]
  {
    var videoRoot := VideoRoot(rootEnv);
    var deleteOrphans := DeleteOrphans(deleteEnv);
    log := [CleanupStart(videoRoot, deleteOrphans)];
    if !isDir(videoRoot) {
      log := log + [RootMissing(videoRoot)];
      return 1, files, log;
    }
    if walk.None? {
      return UncaughtExit, files, log;
    }
    var videoParts, audioParts := ScanFragments(walk.value);
    var mergedCount, orphanCount, out, steps;
    mergedCount, orphanCount, disk, out, steps := Reconcile(videoParts, audioParts, files, deleteOrphans, mux);
    log := log + steps + [CleanupEnd(mergedCount, orphanCount)];
    exitCode := 0;
  }
}
