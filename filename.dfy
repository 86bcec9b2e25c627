/** build_filename (sync.php): the file name a music video is saved under,
    made from the artist, the title and the release year. */
module Filename {
  import opened Text

  /** The characters Windows forbids in file names: \ / : " * ? < > | */
  predicate IsForbidden(c: char) {
    c == '\\' || c == '/' || c == ':' || c == '"' || c == '*' || c == '?' || c == '<' || c == '>' || c == '|'
  }

  /** The characters PCRE's \s matches: space, \t, \n, \v, \f, \r. */
  predicate IsSpace(c: char) {
    c == ' ' || c == '\t' || c == '\n' || c == '\U{B}' || c == '\U{C}' || c == '\r'
  }

  /** A character class, as the bracket expression of a pattern. */
  type CharClass = char -> bool

  /** `s` without its leading run of characters of class `cls`. */
  function DropRun(s: string, cls: CharClass): (r: string)
    ensures |r| <= |s|
    ensures r == [] || !cls(r[0])
  {
    if s != [] && cls(s[0]) then DropRun(s[1..], cls) else s
  }

  /** What DropRun keeps is a suffix of its input. */
  lemma {:induction false} DropRunSuffix(s: string, cls: CharClass)
    ensures DropRun(s, cls) == s[|s| - |DropRun(s, cls)|..]
  {
    if s != [] && cls(s[0]) {
      DropRunSuffix(s[1..], cls);
    }
  }

  /** preg_replace('/[class]+/', rep, s): every maximal run of characters of
      class `k` becomes the single character `rep`. */
  function CollapseRuns(s: string, cls: CharClass, rep: char): (r: string)
    ensures |r| <= |s|
    decreases |s|
  {
    if s == [] then []
    else if cls(s[0]) then
      var rest := DropRun(s, cls);
      [rep] + CollapseRuns(rest, cls, rep)
    else
      [s[0]] + CollapseRuns(s[1..], cls, rep)
  }

  /** In the result, a character of the class is the replacement, and no
      two characters of the class are adjacent: each run became one
      character. */
  lemma {:induction false} CollapseShape(s: string, cls: CharClass, rep: char)
    ensures var r := CollapseRuns(s, cls, rep);
            && (forall i :: 0 <= i < |r| && cls(r[i]) ==> r[i] == rep)
            && (forall i :: 0 <= i < |r| - 1 ==> !(cls(r[i]) && cls(r[i + 1])))
            && (s != [] ==> r != [] && r[0] == (if cls(s[0]) then rep else s[0]))
    decreases |s|
  {
    if s != [] {
      if cls(s[0]) {
        var rest := DropRun(s, cls);
        CollapseShape(rest, cls, rep);
      } else {
        CollapseShape(s[1..], cls, rep);
      }
    }
  }

  /** A run never crosses a cut after a character outside the class or
      before one, so collapsing distributes over such a cut. */
  lemma {:induction false} CollapseAppend(a: string, b: string, cls: CharClass, rep: char)
    requires a == [] || b == [] || !cls(a[|a| - 1]) || !cls(b[0])
    ensures CollapseRuns(a + b, cls, rep) == CollapseRuns(a, cls, rep) + CollapseRuns(b, cls, rep)
    decreases |a|, 1
  {
    if a == [] {
      assert a + b == b;
    } else if !cls(a[0]) {
      CollapseAppendPlain(a, b, cls, rep);
    } else {
      CollapseAppendRun(a, b, cls, rep);
    }
  }

  lemma {:induction false} CollapseAppendPlain(a: string, b: string, cls: CharClass, rep: char)
    requires a != [] && !cls(a[0])
    requires b == [] || !cls(a[|a| - 1]) || !cls(b[0])
    ensures CollapseRuns(a + b, cls, rep) == CollapseRuns(a, cls, rep) + CollapseRuns(b, cls, rep)
    decreases |a|, 0
  {
    assert (a + b)[0] == a[0];
    assert (a + b)[1..] == a[1..] + b;
    var x, y := CollapseRuns(a[1..], cls, rep), CollapseRuns(b, cls, rep);
    assert CollapseRuns(a + b, cls, rep) == [a[0]] + CollapseRuns(a[1..] + b, cls, rep);
    CollapseAppend(a[1..], b, cls, rep);
    assert [a[0]] + (x + y) == ([a[0]] + x) + y;
  }

  lemma {:induction false} CollapseAppendRun(a: string, b: string, cls: CharClass, rep: char)
    requires a != [] && cls(a[0])
    requires b == [] || !cls(a[|a| - 1]) || !cls(b[0])
    ensures CollapseRuns(a + b, cls, rep) == CollapseRuns(a, cls, rep) + CollapseRuns(b, cls, rep)
    decreases |a|, 0
  {
    assert (a + b)[0] == a[0];
    assert CollapseRuns(a + b, cls, rep) == [rep] + CollapseRuns(DropRun(a + b, cls), cls, rep);
    assert CollapseRuns(a, cls, rep) == [rep] + CollapseRuns(DropRun(a, cls), cls, rep);
    var rest := DropRun(a, cls);
    DropRunAppend(a, b, cls);
    if rest == [] {
      WholeRunAppend(a, b, cls, rep);
      assert CollapseRuns(rest, cls, rep) == [];
    } else {
      DropRunSuffix(a, cls);
      assert rest[|rest| - 1] == a[|a| - 1];
      CollapseAppend(rest, b, cls, rep);
      AppendAssoc([rep], CollapseRuns(rest, cls, rep), CollapseRuns(b, cls, rep));
    }
  }

  /** When `a` is one whole run, `b` starts outside the class. */
  lemma WholeRunAppend(a: string, b: string, cls: CharClass, rep: char)
    requires a != [] && cls(a[0]) && DropRun(a, cls) == []
    requires b == [] || !cls(a[|a| - 1]) || !cls(b[0])
    ensures DropRun(b, cls) == b
  {
    DropRunDropped(a, cls);
  }

  /** What DropRun drops is all of class `cls`. */
  lemma {:induction false} DropRunDropped(s: string, cls: CharClass)
    ensures forall i :: 0 <= i < |s| - |DropRun(s, cls)| ==> cls(s[i])
  {
    if s != [] && cls(s[0]) {
      DropRunDropped(s[1..], cls);
      assert forall i :: 1 <= i < |s| ==> s[i] == s[1..][i - 1];
    }
  }

  lemma {:induction false} DropRunAppend(a: string, b: string, cls: CharClass)
    ensures DropRun(a, cls) != [] ==> DropRun(a + b, cls) == DropRun(a, cls) + b
    ensures DropRun(a, cls) == [] ==> DropRun(a + b, cls) == DropRun(b, cls)
  {
    if a == [] {
      assert a + b == b;
    } else if cls(a[0]) {
      assert (a + b)[0] == a[0];
      assert DropRun(a + b, cls) == DropRun((a + b)[1..], cls);
      assert (a + b)[1..] == a[1..] + b;
      DropRunAppend(a[1..], b, cls);
    } else {
      assert (a + b)[0] == a[0];
    }
  }

  /** A whole run collapses to the one replacement character. */
  lemma CollapseRun(run: string, cls: CharClass, rep: char)
    requires run != [] && forall i :: 0 <= i < |run| ==> cls(run[i])
    ensures CollapseRuns(run, cls, rep) == [rep]
  {
    DropRunAll(run, cls);
  }

  lemma {:induction false} DropRunAll(run: string, cls: CharClass)
    requires forall i :: 0 <= i < |run| ==> cls(run[i])
    ensures DropRun(run, cls) == []
  {
    if run != [] {
      assert forall i :: 0 <= i < |run[1..]| ==> run[1..][i] == run[i + 1];
      DropRunAll(run[1..], cls);
    }
  }

  /** Text with no character of the class is left as it is. */
  lemma {:induction false} CollapseNone(s: string, cls: CharClass, rep: char)
    requires forall i :: 0 <= i < |s| ==> !cls(s[i])
    ensures CollapseRuns(s, cls, rep) == s
    decreases |s|
  {
    if s != [] {
      CollapseNone(s[1..], cls, rep);
    }
  }

  /** The stem before sanitising: "artist - title", and " (year)" when a
      year is known. */
  function RawStem(artist: string, title: string, year: Option<int>): string {
    var base := artist + " - " + title;
    match year
    case None => base
    case Some(y) => base + " (" + IntToString(y) + ")"
  }

  /** The three sanitising steps: forbidden runs to "_", whitespace runs to
      " ", then trim. */
  function Sanitize(base: string): string {
    Trim(CollapseRuns(CollapseRuns(base, IsForbidden, '_'), IsSpace, ' '))
  }

  /** build_filename($artist, $title, $year). */
  function BuildFilename(artist: string, title: string, year: Option<int>): (name: string)
    ensures |name| >= 4 && name[|name| - 4..] == ".mp4"
  {
    Sanitize(RawStem(artist, title, year)) + ".mp4"
  }

  /** A stem after the two collapses, before the trim: no forbidden
      character, and no whitespace but single spaces. */
  ghost predicate Collapsed(s: string) {
    && (forall i :: 0 <= i < |s| ==> !IsForbidden(s[i]))
    && (forall i :: 0 <= i < |s| && IsSpace(s[i]) ==> s[i] == ' ')
    && (forall i :: 0 <= i < |s| - 1 ==> !(IsSpace(s[i]) && IsSpace(s[i + 1])))
  }

  /** What the sanitised stem looks like: collapsed, and no whitespace at
      either end. */
  ghost predicate CleanStem(stem: string) {
    Collapsed(stem) && (stem == [] || (!IsSpace(stem[0]) && !IsSpace(stem[|stem| - 1])))
  }

  lemma SanitizeIsClean(base: string)
    ensures CleanStem(Sanitize(base))
  {
    var s2 := CollapseRuns(CollapseRuns(base, IsForbidden, '_'), IsSpace, ' ');
    CollapsedAfterBoth(base);
    TrimCollapsed(s2);
  }

  /** The file name is a clean stem followed by ".mp4": no forbidden
      character, no whitespace other than single inner spaces. */
  lemma BuildFilenameClean(artist: string, title: string, year: Option<int>)
    ensures var name := BuildFilename(artist, title, year);
            CleanStem(name[..|name| - 4])
  {
    var stem := Sanitize(RawStem(artist, title, year));
    SanitizeIsClean(RawStem(artist, title, year));
    assert (stem + ".mp4")[..|stem|] == stem;
  }

  lemma CollapsedAfterBoth(base: string)
    ensures Collapsed(CollapseRuns(CollapseRuns(base, IsForbidden, '_'), IsSpace, ' '))
  {
    var s1 := CollapseRuns(base, IsForbidden, '_');
    var s2 := CollapseRuns(s1, IsSpace, ' ');
    CollapseShape(base, IsForbidden, '_');
    CollapseShape(s1, IsSpace, ' ');
    forall i | 0 <= i < |s2| ensures !IsForbidden(s2[i]) {
      CollapseKeepsOthers(s1, IsSpace, ' ', IsForbidden, i);
    }
  }

  /** Trimming a collapsed stem strips its one space at either end. */
  lemma TrimCollapsed(s: string)
    requires Collapsed(s)
    ensures CleanStem(Trim(s))
  {
    var t := Trim(s);
    var k := |s| - |TrimLeft(s)|;
    TrimInfix(s);
    assert t == s[k..k + |t|];
    CollapsedSlice(s, k, k + |t|);
    SpaceIsTrimmed(t);
  }

  lemma CollapsedSlice(s: string, k: int, m: int)
    requires Collapsed(s) && 0 <= k <= m <= |s|
    ensures Collapsed(s[k..m])
  {
    var t := s[k..m];
    assert forall i :: 0 <= i < |t| ==> t[i] == s[k + i];
  }

  /** In a collapsed stem the only whitespace is ' ', which trim() strips. */
  lemma SpaceIsTrimmed(t: string)
    requires Collapsed(t)
    requires t == [] || (!IsTrimChar(t[0]) && !IsTrimChar(t[|t| - 1]))
    ensures CleanStem(t)
  {
  }

  /** Collapsing one class brings in no character of another class that the
      input lacked, as long as the replacement is not in it. */
  lemma CollapseKeepsOthers(s: string, cls: CharClass, rep: char, other: CharClass, i: int)
    requires forall j :: 0 <= j < |s| ==> !other(s[j])
    requires !other(rep)
    requires 0 <= i < |CollapseRuns(s, cls, rep)|
    ensures !other(CollapseRuns(s, cls, rep)[i])
  {
    CollapseChars(s, cls, rep);
  }

  /** Every character of the result is the replacement or a character of the input. */
  lemma {:induction false} CollapseChars(s: string, cls: CharClass, rep: char)
    ensures forall i :: 0 <= i < |CollapseRuns(s, cls, rep)| ==>
      CollapseRuns(s, cls, rep)[i] == rep || CollapseRuns(s, cls, rep)[i] in s
    decreases |s|
  {
    if s != [] {
      if cls(s[0]) {
        var rest := DropRun(s, cls);
        CollapseChars(rest, cls, rep);
        DropRunSuffix(s, cls);
        forall c | c in rest ensures c in s {
          var j :| 0 <= j < |rest| && rest[j] == c;
          assert s[|s| - |rest| + j] == c;
        }
      } else {
        CollapseChars(s[1..], cls, rep);
      }
    }
  }

  /** A stem that is already clean and has no trimmed character at its ends
      is kept as it is. */
  lemma SanitizeClean(base: string)
    requires CleanStem(base)
    requires base == [] || (!IsTrimChar(base[0]) && !IsTrimChar(base[|base| - 1]))
    ensures Sanitize(base) == base
  {
    CollapseNone(base, IsForbidden, '_');
    CollapseKeepsSingles(base);
    TrimUntrimmed(base);
  }

  /** Single spaces between other characters survive the whitespace collapse. */
  lemma {:induction false} CollapseKeepsSingles(s: string)
    requires forall i :: 0 <= i < |s| && IsSpace(s[i]) ==> s[i] == ' '
    requires forall i :: 0 <= i < |s| - 1 ==> !(IsSpace(s[i]) && IsSpace(s[i + 1]))
    ensures CollapseRuns(s, IsSpace, ' ') == s
    decreases |s|
  {
    if s != [] {
      CollapseKeepsSingles(s[1..]);
      if IsSpace(s[0]) {
        assert |s| == 1 || !IsSpace(s[1]);
        assert DropRun(s, IsSpace) == s[1..];
      }
    }
  }

  lemma TrimUntrimmed(s: string)
    requires s == [] || (!IsTrimChar(s[0]) && !IsTrimChar(s[|s| - 1]))
    ensures Trim(s) == s
  {
  }

  /** A character outside the class is copied. */
  lemma CollapseKeep(c: char, s: string, cls: CharClass, rep: char)
    requires !cls(c)
    ensures CollapseRuns([c] + s, cls, rep) == [c] + CollapseRuns(s, cls, rep)
  {
    assert ([c] + s)[1..] == s;
  }

  /** A run is replaced by `rep` and skipped. */
  lemma CollapseEnter(c: char, s: string, cls: CharClass, rep: char)
    requires cls(c)
    ensures CollapseRuns([c] + s, cls, rep) == [rep] + CollapseRuns(DropRun(s, cls), cls, rep)
  {
    assert ([c] + s)[1..] == s;
  }

  lemma DropRunCons(c: char, s: string, cls: CharClass)
    ensures DropRun([c] + s, cls) == if cls(c) then DropRun(s, cls) else [c] + s
  {
    assert ([c] + s)[1..] == s;
  }

  /** A run of forbidden characters between two others becomes one "_". */
  lemma ForbiddenRunExample(x: char, y: char)
    requires !IsForbidden(x) && !IsForbidden(y)
    ensures CollapseRuns([x, '/', ':', y], IsForbidden, '_') == [x, '_', y]
  {
    CollapseKeep(x, ['/', ':', y], IsForbidden, '_');
    CollapseEnter('/', [':', y], IsForbidden, '_');
    DropRunCons(':', [y], IsForbidden);
    DropRunCons(y, [], IsForbidden);
    CollapseKeep(y, [], IsForbidden, '_');
  }

  /** A run of mixed whitespace between two other characters becomes one space. */
  lemma SpaceRunExample(x: char, y: char)
    requires !IsSpace(x) && !IsSpace(y)
    ensures CollapseRuns([x, ' ', '\t', y], IsSpace, ' ') == [x, ' ', y]
  {
    CollapseKeep(x, [' ', '\t', y], IsSpace, ' ');
    CollapseEnter(' ', ['\t', y], IsSpace, ' ');
    DropRunCons('\t', [y], IsSpace);
    DropRunCons(y, [], IsSpace);
    CollapseKeep(y, [], IsSpace, ' ');
  }

  /** With a year, the stem is "artist - title (" followed by text that the
      (int) cast reads back as the year, and ")". */
  lemma RawStemYear(artist: string, title: string, y: int)
    ensures var s := RawStem(artist, title, Some(y));
            var base := artist + " - " + title;
            && |s| >= |base| + 4
            && s[..|base|] == base
            && s[|base|..|base| + 2] == " ("
            && s[|s| - 1] == ')'
            && IntVal(s[|base| + 2..|s| - 1]) == y
  {
    var base := artist + " - " + title;
    var s := RawStem(artist, title, Some(y));
    var d := IntToString(y);
    assert s == base + " (" + d + ")";
    assert s[|base| + 2..|s| - 1] == d;
    IntValOfIntToString(y);
  }

  /** The year is appended in parentheses. */
  lemma RawStemExample(artist: string, title: string)
    ensures RawStem(artist, title, Some(1980)) == artist + " - " + title + " (1980)"
    ensures RawStem(artist, title, None) == artist + " - " + title
  {
    YearExample();
  }

  lemma YearExample()
    ensures IntToString(1980) == "1980"
  {
    assert NatToString(1) == "1";
    assert NatToString(19) == NatToString(1) + [DigitChar(9)] == "19";
    assert NatToString(198) == NatToString(19) + [DigitChar(8)] == "198";
    assert NatToString(1980) == NatToString(198) + [DigitChar(0)] == "1980";
  }

  /** A forbidden character becomes "_", and whitespace around the stem is trimmed. */
  lemma SanitizeExample(x: char)
    requires !IsForbidden(x) && !IsSpace(x) && !IsTrimChar(x)
    ensures Sanitize([' ', x, '/', '\n']) == [x, '_']
  {
    ForbiddenInside(x);
    SpaceOutside(x);
    assert TrimLeft([' ', x, '_', ' ']) == [x, '_', ' '];
    assert TrimRight([x, '_', ' ']) == [x, '_'];
  }

  lemma ForbiddenInside(x: char)
    requires !IsForbidden(x)
    ensures CollapseRuns([' ', x, '/', '\n'], IsForbidden, '_') == [' ', x, '_', '\n']
  {
    CollapseKeep(' ', [x, '/', '\n'], IsForbidden, '_');
    CollapseKeep(x, ['/', '\n'], IsForbidden, '_');
    CollapseEnter('/', ['\n'], IsForbidden, '_');
    DropRunCons('\n', [], IsForbidden);
    CollapseKeep('\n', [], IsForbidden, '_');
  }

  lemma SpaceOutside(x: char)
    requires !IsSpace(x)
    ensures CollapseRuns([' ', x, '_', '\n'], IsSpace, ' ') == [' ', x, '_', ' ']
  {
    CollapseEnter(' ', [x, '_', '\n'], IsSpace, ' ');
    DropRunCons(x, ['_', '\n'], IsSpace);
    CollapseKeep(x, ['_', '\n'], IsSpace, ' ');
    CollapseKeep('_', ['\n'], IsSpace, ' ');
    CollapseEnter('\n', [], IsSpace, ' ');
  }
}
