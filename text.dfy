/** String helpers shared by the three scripts: the PHP built-ins they call
    (strtolower, trim, rtrim, strrev, stripos, integer-to-string), written
    over `string` = seq<char>. */
module Text {

  datatype Option<T> = None | Some(value: T)

  /** A file-system path. */
  type Path = string

  /** What an external command (exec) reports: its exit code and the lines
      it printed. */
  datatype ExecResult = ExecResult(exitCode: int, output: seq<string>)

  /** strtolower: ASCII letters only (PHP 8 is locale-independent here). */
  function LowerChar(c: char): char {
    if 'A' <= c <= 'Z' then (c as int + 32) as char else c
  }

  function Lower(s: string): (r: string)
    ensures |r| == |s|
    ensures forall i :: 0 <= i < |s| ==> r[i] == LowerChar(s[i])
  {
    if s == [] then [] else [LowerChar(s[0])] + Lower(s[1..])
  }

  /** The characters trim() strips when called without a character list. */
  predicate IsTrimChar(c: char) {
    c == ' ' || c == '\t' || c == '\n' || c == '\r' || c == '\0' || c == '\U{B}'
  }

  function TrimLeft(s: string): (r: string)
    ensures |r| <= |s|
    ensures r == [] || !IsTrimChar(r[0])
  {
    if s != [] && IsTrimChar(s[0]) then TrimLeft(s[1..]) else s
  }

  /** TrimLeft keeps a suffix and cuts away only trimmed characters. */
  lemma {:induction false} TrimLeftCut(s: string)
    ensures var r := TrimLeft(s);
            && r == s[|s| - |r|..]
            && forall i :: 0 <= i < |s| - |r| ==> IsTrimChar(s[i])
  {
    if s != [] && IsTrimChar(s[0]) {
      TrimLeftCut(s[1..]);
    }
  }

  function TrimRight(s: string): (r: string)
    ensures |r| <= |s|
    ensures r == [] || !IsTrimChar(r[|r| - 1])
    ensures r == [] || r[0] == s[0]
  {
    if s != [] && IsTrimChar(s[|s| - 1]) then TrimRight(s[..|s| - 1]) else s
  }

  /** TrimRight keeps a prefix and cuts away only trimmed characters. */
  lemma {:induction false} TrimRightCut(s: string)
    ensures var r := TrimRight(s);
            && r == s[..|r|]
            && forall i :: |r| <= i < |s| ==> IsTrimChar(s[i])
  {
    if s != [] && IsTrimChar(s[|s| - 1]) {
      TrimRightCut(s[..|s| - 1]);
    }
  }

  /** trim(): strips trimmed characters from both ends. */
  function Trim(s: string): (r: string)
    ensures r == [] || (!IsTrimChar(r[0]) && !IsTrimChar(r[|r| - 1]))
  {
    TrimRight(TrimLeft(s))
  }

  /** What trim() keeps is one infix of `s`, and everything cut away is a
      trimmed character. */
  lemma TrimInfix(s: string)
    ensures var r := Trim(s);
            && OccursAt(r, s, |s| - |TrimLeft(s)|)
            && forall i :: 0 <= i < |s| && !IsTrimChar(s[i]) ==>
                 |s| - |TrimLeft(s)| <= i < |s| - |TrimLeft(s)| + |r|
  {
    var left := TrimLeft(s);
    var r := TrimRight(left);
    var k := |s| - |left|;
    TrimLeftCut(s);
    TrimRightCut(left);
    assert s[k..k + |r|] == r;
  }

  /** rtrim($s, '/'). */
  function RTrimSlash(s: string): (r: string)
    ensures |r| <= |s|
    ensures r == [] || r[|r| - 1] != '/'
  {
    if s != [] && s[|s| - 1] == '/' then RTrimSlash(s[..|s| - 1]) else s
  }

  /** rtrim keeps a prefix and cuts away only slashes. */
  lemma {:induction false} RTrimSlashCut(s: string)
    ensures var r := RTrimSlash(s);
            && r == s[..|r|]
            && forall i :: |r| <= i < |s| ==> s[i] == '/'
  {
    if s != [] && s[|s| - 1] == '/' {
      var init := s[..|s| - 1];
      RTrimSlashCut(init);
      var r := RTrimSlash(init);
      assert init[..|r|] == s[..|r|];
      assert forall i :: |r| <= i < |init| ==> init[i] == s[i];
    }
  }

  /** strrev / array_reverse. */
  function Reverse<T>(s: seq<T>): (r: seq<T>)
    ensures |r| == |s|
    ensures forall i :: 0 <= i < |s| ==> r[i] == s[|s| - 1 - i]
  {
    if s == [] then [] else Reverse(s[1..]) + [s[0]]
  }

  lemma ReverseAppend<T>(s: seq<T>, x: T)
    ensures Reverse(s + [x]) == [x] + Reverse(s)
  {
    assert Reverse(s + [x]) == [x] + Reverse(s);
  }

  lemma AppendAssoc<T>(x: seq<T>, y: seq<T>, z: seq<T>)
    ensures x + (y + z) == (x + y) + z
  {
  }

  /** `needle` occurs in `hay` starting at index k. */
  predicate OccursAt(needle: string, hay: string, k: int) {
    0 <= k <= |hay| - |needle| && hay[k..k + |needle|] == needle
  }

  predicate IsInfix(needle: string, hay: string) {
    exists k :: 0 <= k <= |hay| - |needle| && OccursAt(needle, hay, k)
  }

  /** stripos($hay, $needle) !== false, for the ASCII case folding PHP 8 uses. */
  predicate ContainsIgnoringCase(hay: string, needle: string) {
    IsInfix(Lower(needle), Lower(hay))
  }

  function DigitChar(d: nat): (c: char)
    requires d < 10
    ensures '0' <= c <= '9' && c as int - '0' as int == d
  {
    ('0' as int + d) as char
  }

  /** Decimal rendering of a non-negative integer, as PHP's string conversion does it. */
  function NatToString(n: nat): (r: string)
    ensures |r| >= 1
    ensures forall i :: 0 <= i < |r| ==> '0' <= r[i] <= '9'
    decreases n
  {
    if n < 10 then [DigitChar(n)] else NatToString(n / 10) + [DigitChar(n % 10)]
  }

  function IntToString(n: int): (r: string)
    ensures |r| >= 1
  {
    if n < 0 then "-" + NatToString(-n) else NatToString(n)
  }

  /** The whitespace (int) skips before the number: space, \t, \n, \r, \v, \f. */
  predicate IsLeadingSpace(c: char) {
    c == ' ' || c == '\t' || c == '\n' || c == '\r' || c == '\U{B}' || c == '\U{C}'
  }

  predicate IsDigit(c: char) {
    '0' <= c <= '9'
  }

  /** The longest prefix of `s` made of decimal digits. */
  function LeadingDigits(s: string): (d: string)
    ensures |d| <= |s|
    ensures forall i :: 0 <= i < |d| ==> IsDigit(d[i])
  {
    if s != [] && IsDigit(s[0]) then [s[0]] + LeadingDigits(s[1..]) else []
  }

  /** LeadingDigits is a prefix, and the character after it is not a digit. */
  lemma {:induction false} LeadingDigitsLongest(s: string)
    ensures var d := LeadingDigits(s);
            && d == s[..|d|]
            && (|d| == |s| || !IsDigit(s[|d|]))
  {
    if s != [] && IsDigit(s[0]) {
      LeadingDigitsLongest(s[1..]);
    }
  }

  function DigitsValue(d: string): nat
    requires forall i :: 0 <= i < |d| ==> IsDigit(d[i])
  {
    if d == [] then 0
    else
      assert IsDigit(d[|d| - 1]);
      10 * DigitsValue(d[..|d| - 1]) + (d[|d| - 1] as int - '0' as int)
  }

  function SkipLeadingSpace(s: string): (r: string)
    ensures |r| <= |s|
    ensures r == [] || !IsLeadingSpace(r[0])
  {
    if s != [] && IsLeadingSpace(s[0]) then SkipLeadingSpace(s[1..]) else s
  }

  /** (int) on a string: leading whitespace, an optional sign, then as many
      decimal digits as follow; anything else gives 0. */
  function IntVal(s: string): int {
    var t := SkipLeadingSpace(s);
    if t != [] && t[0] == '-' then -(DigitsValue(LeadingDigits(t[1..])) as int)
    else if t != [] && t[0] == '+' then DigitsValue(LeadingDigits(t[1..]))
    else DigitsValue(LeadingDigits(t))
  }

  lemma {:induction false} DigitsValueOfNat(n: nat)
    ensures DigitsValue(NatToString(n)) == n
  {
    if n >= 10 {
      DigitsValueOfNat(n / 10);
      var d := NatToString(n);
      assert d[..|d| - 1] == NatToString(n / 10);
    }
  }

  lemma {:induction false} LeadingDigitsAll(d: string)
    requires forall i :: 0 <= i < |d| ==> IsDigit(d[i])
    ensures LeadingDigits(d) == d
  {
    if d != [] {
      LeadingDigitsAll(d[1..]);
    }
  }

  /** (int) reads back what the decimal rendering wrote. */
  lemma IntValOfIntToString(n: int)
    ensures IntVal(IntToString(n)) == n
  {
    if n < 0 {
      IntValOfNegative(-n);
    } else {
      IntValOfNatToString(n);
    }
  }

  lemma IntValOfNatToString(n: nat)
    ensures IntVal(NatToString(n)) == n
  {
    var d := NatToString(n);
    assert SkipLeadingSpace(d) == d;
    LeadingDigitsAll(d);
    DigitsValueOfNat(n);
  }

  lemma IntValOfNegative(n: nat)
    requires n > 0
    ensures IntVal("-" + NatToString(n)) == -(n as int)
  {
    var d := NatToString(n);
    var t := "-" + d;
    assert SkipLeadingSpace(t) == t;
    assert t[1..] == d;
    LeadingDigitsAll(d);
    DigitsValueOfNat(n);
  }
}

/** env_val() and the boolean switches built from it; the same helper opens
    cleanup_fragments.php, sync.php and public/index.php. */
module Env {
  import opened Text

  /** env_val($key, $default): the variable's value, or the default when it is unset. */
  function EnvVal(value: Option<string>, default: string): string {
    match value
    case Some(v) => v
    case None => default
  }

  /** strtolower((string) env_val($key, $default)) === 'true' */
  predicate Flag(value: Option<string>, default: string) {
    Lower(EnvVal(value, default)) == "true"
  }
}
