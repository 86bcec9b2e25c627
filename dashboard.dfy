/** The status page (public/index.php): the tail of a log file read
    backwards one character at a time, the message a maintenance command
    reports, and the configuration switches it displays. */
module Dashboard {
  import opened Text
  import Env

  // ---------------------------------------------------------------------------
  // Lines of a text
  // ---------------------------------------------------------------------------

  /** explode("\n", c): the pieces of `c` between newlines. There is always
      at least one piece; a text ending in "\n" ends with an empty piece. */
  function SplitLines(c: string): (lines: seq<string>)
    ensures |lines| >= 1
    ensures forall i :: 0 <= i < |lines| ==> '\n' !in lines[i]
  {
    if c == [] then [""]
    else
      var init := SplitLines(c[..|c| - 1]);
      var ch := c[|c| - 1];
      if ch == '\n' then init + [""]
      else init[..|init| - 1] + [init[|init| - 1] + [ch]]
  }

  /** implode("\n", lines) */
  function Join(lines: seq<string>): string {
    if lines == [] then ""
    else if |lines| == 1 then lines[0]
    else Join(lines[..|lines| - 1]) + "\n" + lines[|lines| - 1]
  }

  /** Splitting and joining are inverse: no character is lost or added. */
  lemma {:induction false} JoinSplitLines(c: string)
    ensures Join(SplitLines(c)) == c
  {
    if c != [] {
      var init := SplitLines(c[..|c| - 1]);
      JoinSplitLines(c[..|c| - 1]);
      var ch := c[|c| - 1];
      if ch == '\n' {
        assert SplitLines(c) == init + [""];
        JoinNewLine(init);
      } else {
        assert SplitLines(c) == init[..|init| - 1] + [init[|init| - 1] + [ch]];
        JoinExtendLast(init, ch);
      }
      assert c[..|c| - 1] + [ch] == c;
    }
  }

  /** Starting a new, empty line adds one newline to the joined text. */
  lemma JoinNewLine(lines: seq<string>)
    requires lines != []
    ensures Join(lines + [""]) == Join(lines) + "\n"
  {
    assert (lines + [""])[..|lines|] == lines;
  }

  /** Extending the last line extends the joined text. */
  lemma JoinExtendLast(lines: seq<string>, ch: char)
    requires lines != []
    ensures Join(lines[..|lines| - 1] + [lines[|lines| - 1] + [ch]]) == Join(lines) + [ch]
  {
    var last := lines[|lines| - 1];
    var ext := lines[..|lines| - 1] + [last + [ch]];
    if |lines| == 1 {
      assert ext == [last + [ch]];
    } else {
      var front := lines[..|lines| - 1];
      assert ext[..|ext| - 1] == front;
      assert Join(ext) == Join(front) + "\n" + (last + [ch]);
      assert Join(lines) == Join(front) + "\n" + last;
      AppendAssoc(Join(front) + "\n", last, [ch]);
    }
  }

  /** A text without newlines is a single line. */
  lemma {:induction false} SplitLinesNoNewline(s: string)
    requires '\n' !in s
    ensures SplitLines(s) == [s]
  {
    if s != [] {
      SplitLinesNoNewline(s[..|s| - 1]);
      assert s[..|s| - 1] + [s[|s| - 1]] == s;
    }
  }

  /** Splitting `x + "\n" + seg`, where `seg` has no newline, gives the
      lines of `x` followed by `seg`. */
  lemma {:induction false} SplitLinesLast(x: string, seg: string)
    requires '\n' !in seg
    ensures SplitLines(x + "\n" + seg) == SplitLines(x) + [seg]
  {
    if seg == [] {
      assert (x + "\n" + seg)[..|x|] == x;
    } else {
      var init := seg[..|seg| - 1];
      SplitLinesLast(x, init);
      assert (x + "\n" + seg)[..|x + "\n" + seg| - 1] == x + "\n" + init;
      assert init + [seg[|seg| - 1]] == seg;
    }
  }

  predicate IsSuffix(s: string, t: string) {
    |s| <= |t| && t[|t| - |s|..] == s
  }

  /** The lines from index k on join to a suffix of the joined whole. */
  lemma {:induction false} JoinDropIsSuffix(lines: seq<string>, k: nat)
    requires k < |lines|
    ensures IsSuffix(Join(lines[k..]), Join(lines))
  {
    if k < |lines| - 1 {
      var init := lines[..|lines| - 1];
      JoinDropIsSuffix(init, k);
      assert lines[k..][..|lines[k..]| - 1] == init[k..];
      if |init[k..]| == 1 {
        assert Join(lines[k..]) == Join(init[k..]) + "\n" + lines[|lines| - 1];
      }
    } else {
      assert lines[k..] == [lines[k]];
    }
  }

  // ---------------------------------------------------------------------------
  // read_last_lines
  // ---------------------------------------------------------------------------

  /** The log file as the page finds it. */
  datatype LogFile = Missing | Unreadable | Present(content: string)

  /** What read_last_lines returns for the contents `c`: the last `n`
      newline-separated lines, in order, except that when the whole text is
      returned an empty first line is dropped. */
  function LastLines(c: string, n: int): (r: seq<string>)
    ensures |r| <= if n < 0 then 0 else n
    ensures forall i :: 0 <= i < |r| ==> '\n' !in r[i]
  {
    if n <= 0 then []
    else
      var lines := SplitLines(c);
      if |lines| > n then lines[|lines| - n..]
      else if lines[0] == "" then lines[1..]
      else lines
  }

  /** fseek($fp, $pos, SEEK_END) === 0, for a negative offset. */
  predicate SeekFromEnd(c: string, pos: int) {
    -pos <= |c|
  }

  /** fgetc at offset `at`: the character there, or false past the end. */
  function GetChar(c: string, at: int): Option<char> {
    if 0 <= at < |c| then Some(c[at]) else None
  }

  /** read_last_lines($file, $lines). */
  method ReadLastLines(file: LogFile, lines: int) returns (result: seq<string>)
    ensures file.Missing? ==> result == ["No log file found yet."]
    ensures file.Unreadable? ==> result == ["Unable to read log file."]
    ensures file.Present? ==> result == LastLines(file.content, lines)
  {
    if file.Missing? {
      return ["No log file found yet."];
    }
    if file.Unreadable? {
      return ["Unable to read log file."];
    }
    var c := file.content;
    var buffer := "";
    var pos := -1;
    var lineCount := 0;
    var out: seq<string> := [];
    // `j` marks where the line being collected ends: the file from j on has
    // been split into `out`, and the reversed `buffer` is c[|c| + pos + 1..j].
    ghost var j := |c|;
    assert c[..j] == c;
    while lineCount < lines
      invariant -pos - 1 <= |c|
      invariant j == |c| + pos + 1 + |buffer| <= |c|
      invariant Reverse(buffer) == c[|c| + pos + 1..j]
      invariant '\n' !in buffer
      invariant SplitLines(c) == SplitLines(c[..j]) + Reverse(out)
      invariant |out| == lineCount
      invariant lineCount <= lines || lineCount == 0
      invariant lineCount >= lines ==> buffer == ""
      decreases |c| + pos + 1
    {
      if !SeekFromEnd(c, pos) {
        break;
      }
      var ch := GetChar(c, |c| + pos);
      if ch == Some('\n') {
        var line := Reverse(buffer);
        NewlineTurn(c, |c| + pos, j, buffer, out);
        out := out + [line];
        buffer := "";
        lineCount := lineCount + 1;
        pos := pos - 1;
        j := |c| + pos + 1;
        continue;
      }
      if ch.None? {
        break;
      }
      BufferTurn(c, |c| + pos, j, buffer);
      buffer := buffer + [ch.value];
      pos := pos - 1;
    }
    if lineCount >= lines {
      TailByCount(c, lines, c[..j], out);
    } else {
      assert c[..j] == Reverse(buffer);
      TailAtStart(c, lines, buffer, out);
    }
    if buffer != "" {
      out := out + [Reverse(buffer)];
    }
    result := Reverse(out);
  }

  /** A newline at index p closes the line collected in `buffer`. */
  lemma NewlineTurn(c: string, p: nat, j: nat, buffer: string, out: seq<string>)
    requires p < j <= |c| && c[p] == '\n'
    requires Reverse(buffer) == c[p + 1..j] && '\n' !in buffer
    requires SplitLines(c) == SplitLines(c[..j]) + Reverse(out)
    ensures SplitLines(c) == SplitLines(c[..p]) + Reverse(out + [Reverse(buffer)])
  {
    var line := Reverse(buffer);
    ReverseKeepsOut(buffer, '\n');
    SplitLinesLast(c[..p], line);
    CutAtNewline(c, p, j);
    ReverseAppend(out, line);
    AppendAssoc(SplitLines(c[..p]), [line], Reverse(out));
  }

  /** A value absent from a sequence is absent from its reverse. */
  lemma ReverseKeepsOut<T>(s: seq<T>, x: T)
    requires x !in s
    ensures x !in Reverse(s)
  {
  }

  /** The text before index j is the text before the newline at p, that
      newline, and the text between. */
  lemma CutAtNewline(c: string, p: nat, j: nat)
    requires p < j <= |c| && c[p] == '\n'
    ensures c[..p] + "\n" + c[p + 1..j] == c[..j]
  {
  }

  /** One more character read backwards extends the buffered piece. */
  lemma BufferTurn(c: string, p: nat, j: nat, buffer: string)
    requires p < j <= |c|
    requires Reverse(buffer) == c[p + 1..j]
    ensures Reverse(buffer + [c[p]]) == c[p..j]
  {
    ReverseAppend(buffer, c[p]);
    assert c[p..j] == [c[p]] + c[p + 1..j];
  }

  /** The loop stopped after `n` lines: those are the last `n` lines. */
  lemma TailByCount(c: string, n: int, head: string, out: seq<string>)
    requires SplitLines(c) == SplitLines(head) + Reverse(out)
    requires if n <= 0 then out == [] else |out| == n
    ensures Reverse(out) == LastLines(c, n)
  {
  }

  /** The loop reached the start of the file with fewer than `n` lines
      collected: the piece left in the buffer is the first line, kept only
      when it is not empty. */
  lemma TailAtStart(c: string, n: int, buffer: string, out: seq<string>)
    requires '\n' !in buffer
    requires SplitLines(c) == SplitLines(Reverse(buffer)) + Reverse(out)
    requires |out| < n
    ensures Reverse(out + if buffer != "" then [Reverse(buffer)] else []) == LastLines(c, n)
  {
    var first := Reverse(buffer);
    ReverseKeepsOut(buffer, '\n');
    SplitLinesNoNewline(first);
    var lines := SplitLines(c);
    assert lines == [first] + Reverse(out);
    assert |lines| <= n;
    if buffer != "" {
      assert first != "";
      ReverseAppend(out, first);
    } else {
      assert lines[0] == "";
      assert lines[1..] == Reverse(out);
      assert out + [] == out;
    }
  }

  /** Joined with "\n", the lines returned are a suffix of the file. */
  lemma LastLinesSuffix(c: string, n: int)
    ensures IsSuffix(Join(LastLines(c, n)), c)
  {
    JoinSplitLines(c);
    var lines := SplitLines(c);
    if n > 0 {
      if |lines| > n {
        JoinDropIsSuffix(lines, |lines| - n);
      } else if lines[0] == "" {
        if |lines| == 1 {
          assert lines[1..] == [];
        } else {
          JoinDropIsSuffix(lines, 1);
        }
      } else {
        assert lines[0..] == lines;
        JoinDropIsSuffix(lines, 0);
      }
    }
  }

  /** An empty file gives no lines. */
  lemma LastLinesOfEmpty(n: int)
    ensures LastLines("", n) == []
  {
  }

  /** A file ending in a newline gives an empty last line. */
  lemma LastLinesTrailingNewline(c: string, n: int)
    requires n >= 1 && c != [] && c[|c| - 1] == '\n'
    ensures var r := LastLines(c, n); r != [] && r[|r| - 1] == ""
  {
    assert SplitLines(c) == SplitLines(c[..|c| - 1]) + [""];
  }

  /** The whole file, when it has no more lines than requested, without an
      empty first line. */
  lemma LastLinesWhole(c: string, n: int)
    requires |SplitLines(c)| <= n && c != [] && c[0] != '\n'
    ensures LastLines(c, n) == SplitLines(c)
  {
    FirstLineNotEmpty(c);
  }

  lemma {:induction false} FirstLineNotEmpty(c: string)
    requires c != [] && c[0] != '\n'
    ensures SplitLines(c)[0] != ""
  {
    if |c| > 1 {
      FirstLineNotEmpty(c[..|c| - 1]);
    }
  }

  // ---------------------------------------------------------------------------
  // run_command and the configuration panel
  // ---------------------------------------------------------------------------

  /** A shell command line, run through exec, to what it reports. */
  type Shell = string -> ExecResult

  datatype CommandResult = CommandResult(ok: bool, message: string, output: seq<string>)

  /** run_command($label, $command), with `caption` for the label: runs the command with stderr folded
      into stdout and reports success, a message and the output. */
  function RunCommand(caption: string, command: string, shell: Shell): (r: CommandResult)
    ensures var e := shell(command + " 2>&1");
            && (r.ok <==> e.exitCode == 0)
            && r.output == e.output
            && (r.message == caption + " completed." <==> e.exitCode == 0)
            && (r.message == caption + " failed." <==> e.exitCode != 0)
  {
    var e := shell(command + " 2>&1");
    var r := CommandResult(e.exitCode == 0, caption + (if e.exitCode == 0 then " completed." else " failed."), e.output);
    assert (caption + " completed.")[|caption| + 1] != (caption + " failed.")[|caption| + 1];
    r
  }

  /** The values the configuration panel shows. */
  datatype ConfigView = ConfigView(
    lidarrUrl: string,
    videoRoot: string,
    maxDownloads: int,
    dryRun: string,
    renameOnly: string,
    quality: string,
    lidarrIngest: string,
    artistFilter: string)

  /** The environment, one optional value per variable the panel reads. */
  datatype Environment = Environment(
    lidarrUrl: Option<string>,
    videoRoot: Option<string>,
    maxDownloads: Option<string>,
    dryRun: Option<string>,
    renameOnly: Option<string>,
    quality: Option<string>,
    lidarrIngest: Option<string>,
    artistFilter: Option<string>)

  function YesNo(b: bool): string {
    if b then "Yes" else "No"
  }

  function EnabledDisabled(b: bool): string {
    if b then "Enabled" else "Disabled"
  }

  /** The $config array of the status page. */
  function Config(env: Environment): (v: ConfigView)
    ensures v.dryRun == "Yes" <==> Lower(Env.EnvVal(env.dryRun, "false")) == "true"
    ensures v.dryRun == "No" <==> Lower(Env.EnvVal(env.dryRun, "false")) != "true"
    ensures v.renameOnly == "Enabled" <==> Lower(Env.EnvVal(env.renameOnly, "false")) == "true"
    ensures v.renameOnly == "Disabled" <==> Lower(Env.EnvVal(env.renameOnly, "false")) != "true"
    ensures v.lidarrIngest == "Yes" <==> Lower(Env.EnvVal(env.lidarrIngest, "true")) == "true"
    ensures v.lidarrIngest == "No" <==> Lower(Env.EnvVal(env.lidarrIngest, "true")) != "true"
  {
    ConfigView(
      RTrimSlash(Env.EnvVal(env.lidarrUrl, "")),
      RTrimSlash(Env.EnvVal(env.videoRoot, "/videos")),
      IntVal(Env.EnvVal(env.maxDownloads, "3")),
      YesNo(Env.Flag(env.dryRun, "false")),
      EnabledDisabled(Env.Flag(env.renameOnly, "false")),
      Env.EnvVal(env.quality, "1080p"),
      YesNo(Env.Flag(env.lidarrIngest, "true")),
      Env.EnvVal(env.artistFilter, "\U{2014}"))
  }

  /** With nothing set, dry run and rename-only show off and the ingest
      shows on. */
  lemma ConfigDefaultFlags(env: Environment)
    requires env.dryRun.None? && env.renameOnly.None? && env.lidarrIngest.None?
    ensures Config(env).dryRun == "No" && Config(env).renameOnly == "Disabled" && Config(env).lidarrIngest == "Yes"
  {
    assert Lower("false") == "false";
    assert Lower("true") == "true";
  }

  /** With nothing set, the download budget shown is 3. */
  lemma ConfigDefaultBudget(env: Environment)
    requires env.maxDownloads.None?
    ensures Config(env).maxDownloads == 3
  {
    assert NatToString(3) == "3";
    IntValOfIntToString(3);
  }

  /** The comparison ignores case: "TRUE" switches a flag on like "true". */
  lemma FlagIgnoresCase(env: Environment)
    requires env.dryRun == Some("TRUE")
    ensures Config(env).dryRun == "Yes"
  {
    assert Lower("TRUE") == "true";
  }
}
