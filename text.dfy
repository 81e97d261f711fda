/** The handful of Python string operations the transmogrifier relies on:
    `str.strip()` as a blank-line test, `rstrip("\n")`, `lstrip("\n")`,
    `splitlines(True)`, `partition`, `*` on strings, and the `=+ ` heading
    pattern matched with `re.match`. */
module Text {

  /** Python's `str.isspace()`: the characters `str.strip()` removes when it
      is called without arguments. */
  predicate IsSpace(c: char) {
    || c == ' '
    || ('\t' <= c <= '\r')
    || ('\U{1C}' <= c <= '\U{1F}')
    || c == '\U{85}' || c == '\U{A0}' || c == '\U{1680}'
    || ('\U{2000}' <= c <= '\U{200A}')
    || c == '\U{2028}' || c == '\U{2029}' || c == '\U{202F}'
    || c == '\U{205F}' || c == '\U{3000}'
  }

  /** The characters `str.splitlines()` treats as line boundaries
      ("\r\n" counts as one boundary, see LineLength). */
  predicate IsLineBreak(c: char) {
    || c == '\n' || c == '\r' || c == '\U{0B}' || c == '\U{0C}'
    || ('\U{1C}' <= c <= '\U{1E}')
    || c == '\U{85}' || c == '\U{2028}' || c == '\U{2029}'
  }

  predicate AllSpace(s: string) {
    forall i :: 0 <= i < |s| ==> IsSpace(s[i])
  }

  /** `s.lstrip()`: drops the leading whitespace. */
  function LStripSpace(s: string): (r: string)
    ensures |r| <= |s| && r == s[|s| - |r|..]
    ensures AllSpace(s[..|s| - |r|])
    ensures r == [] || !IsSpace(r[0])
  {
    if s != [] && IsSpace(s[0]) then LStripSpace(s[1..]) else s
  }

  /** `s.rstrip()`: drops the trailing whitespace. */
  function RStripSpace(s: string): (r: string)
    ensures |r| <= |s| && r == s[..|r|]
    ensures AllSpace(s[|r|..])
    ensures r == [] || !IsSpace(r[|r| - 1])
  {
    if s != [] && IsSpace(s[|s| - 1]) then
      var r := RStripSpace(s[..|s| - 1]);
      assert s[|r|..] == s[..|s| - 1][|r|..] + [s[|s| - 1]];
      r
    else s
  }

  /** `s.strip()`. */
  function Strip(s: string): string {
    RStripSpace(LStripSpace(s))
  }

  /** `not s.strip()`, the test the source uses for "this line is blank":
      every character is whitespace (BlankIffStripEmpty). */
  predicate IsBlank(s: string) {
    AllSpace(s)
  }

  /** `s.strip()` is empty exactly when the line is blank. */
  lemma BlankIffStripEmpty(s: string)
    ensures IsBlank(s) <==> Strip(s) == ""
  {
  }

  /** `s.rstrip("\n")`. */
  function RStripNewlines(s: string): (r: string)
    ensures |r| <= |s| && r == s[..|r|]
    ensures forall i :: |r| <= i < |s| ==> s[i] == '\n'
    ensures r == [] || r[|r| - 1] != '\n'
  {
    if s != [] && s[|s| - 1] == '\n' then RStripNewlines(s[..|s| - 1]) else s
  }

  /** `s.lstrip("\n")`. */
  function LStripNewlines(s: string): (r: string)
    ensures |r| <= |s| && r == s[|s| - |r|..]
    ensures forall i :: 0 <= i < |s| - |r| ==> s[i] == '\n'
    ensures r == [] || r[0] != '\n'
  {
    if s != [] && s[0] == '\n' then LStripNewlines(s[1..]) else s
  }

  /** `s * n`. */
  function Repeat(s: string, n: nat): (r: string)
    ensures |r| == |s| * n
  {
    if n == 0 then "" else s + Repeat(s, n - 1)
  }

  /** `c * n` is `n` copies of `c`. */
  lemma {:induction false} RepeatAll(s: string, n: nat)
    requires |s| == 1
    ensures forall j :: 0 <= j < n ==> Repeat(s, n)[j] == s[0]
  {
    if n > 0 {
      RepeatAll(s, n - 1);
      assert forall j :: 1 <= j < n ==> Repeat(s, n)[j] == Repeat(s, n - 1)[j - 1];
    }
  }

  /** Repeating whitespace gives whitespace. */
  lemma {:induction false} RepeatSpace(s: string, n: nat)
    requires AllSpace(s)
    ensures AllSpace(Repeat(s, n))
  {
    if n > 0 {
      RepeatSpace(s, n - 1);
      var r := Repeat(s, n);
      assert r == s + Repeat(s, n - 1);
      assert forall j :: |s| <= j < |r| ==> r[j] == Repeat(s, n - 1)[j - |s|];
    }
  }

  /** The index of the first occurrence of `c` in `s`, or `|s|` when there is none. */
  function IndexOf(s: string, c: char): (i: nat)
    ensures i <= |s|
    ensures i < |s| ==> s[i] == c
    ensures forall j :: 0 <= j < i ==> s[j] != c
  {
    if s == [] then 0 else if s[0] == c then 0 else 1 + IndexOf(s[1..], c)
  }

  /** `s.partition(sep)` for a one-character separator (see PartitionSplits). */
  function Partition(s: string, sep: char): (string, string, string) {
    var i := IndexOf(s, sep);
    if i == |s| then (s, "", "") else (s[..i], [sep], s[i + 1..])
  }

  /** The head has no separator; with a separator, head, separator and tail
      make up the input; without one the input comes back whole. */
  lemma PartitionSplits(s: string, sep: char)
    ensures var r := Partition(s, sep);
      && sep !in r.0
      && (sep in s ==> r.1 == [sep] && s == r.0 + r.1 + r.2)
      && (sep !in s ==> r == (s, "", ""))
  {
    var i := IndexOf(s, sep);
    if i < |s| {
      assert s == s[..i] + [sep] + s[i + 1..];
    }
  }

  /** The number of leading copies of `c` in `s`. */
  function CountLeading(s: string, c: char): (n: nat)
    ensures n <= |s|
    ensures forall j :: 0 <= j < n ==> s[j] == c
    ensures n < |s| ==> s[n] != c
  {
    if s != [] && s[0] == c then 1 + CountLeading(s[1..], c) else 0
  }

  /** A run of exactly `k` copies of `c` at the start is what CountLeading counts. */
  lemma CountLeadingAt(s: string, c: char, k: nat)
    requires k < |s| && s[k] != c && forall j :: 0 <= j < k ==> s[j] == c
    ensures CountLeading(s, c) == k
  {
  }

  /** `re.match(r"=+ ", s)`: one or more '=' at the very start, then a space. */
  predicate MatchesHeading(s: string) {
    var n := CountLeading(s, '=');
    1 <= n < |s| && s[n] == ' '
  }

  /** The pattern check agrees with the regular expression's reading:
      some non-empty run of '=' at the start, immediately followed by ' '. */
  lemma MatchesHeadingIff(s: string)
    ensures MatchesHeading(s) <==>
            exists k :: 1 <= k < |s| && s[k] == ' ' && forall j :: 0 <= j < k ==> s[j] == '='
  {
    var n := CountLeading(s, '=');
    if exists k :: 1 <= k < |s| && s[k] == ' ' && forall j :: 0 <= j < k ==> s[j] == '=' {
      var k :| 1 <= k < |s| && s[k] == ' ' && forall j :: 0 <= j < k ==> s[j] == '=';
      assert n == k;
    }
  }

  /** The length of the first line of `s`, its line boundary included
      ("\r\n" being a single boundary). */
  function LineLength(s: string): (n: nat)
    requires s != []
    ensures 0 < n <= |s|
    ensures forall j :: 0 <= j < n - 1 ==> !IsLineBreak(s[j]) || (j == n - 2 && s[j] == '\r' && s[j + 1] == '\n')
    ensures n < |s| ==> IsLineBreak(s[n - 1])
  {
    var i := FirstBreak(s);
    if i == |s| then |s|
    else if s[i] == '\r' && i + 1 < |s| && s[i + 1] == '\n' then i + 2
    else i + 1
  }

  /** A first line ending in '\r' is never followed by '\n': "\r\n" is
      not cut in two. */
  lemma LineLengthKeepsCRLF(s: string)
    requires s != []
    ensures var n := LineLength(s); n < |s| && s[n - 1] == '\r' ==> s[n] != '\n'
  {
  }

  /** The index of the first line boundary in `s`, or `|s|`. */
  function FirstBreak(s: string): (i: nat)
    ensures i <= |s|
    ensures i < |s| ==> IsLineBreak(s[i])
    ensures forall j :: 0 <= j < i ==> !IsLineBreak(s[j])
  {
    if s == [] then 0 else if IsLineBreak(s[0]) then 0 else 1 + FirstBreak(s[1..])
  }

  /** The concatenation of a list of strings (`"".join(lines)`). */
  function Concat(lines: seq<string>): string {
    if lines == [] then "" else lines[0] + Concat(lines[1..])
  }

  /** `s.splitlines(True)`: the lines of `s`, each keeping its line
      boundary (see SplitLinesConcat, SplitLinesNonEmpty and
      SplitLinesBreaks). */
  function SplitLines(s: string): (lines: seq<string>)
    decreases |s|
    ensures s == "" <==> lines == []
  {
    if s == "" then []
    else
      var n := LineLength(s);
      [s[..n]] + SplitLines(s[n..])
  }

  /** The lines concatenate back to the text. */
  lemma {:induction false} SplitLinesConcat(s: string)
    decreases |s|
    ensures Concat(SplitLines(s)) == s
  {
    if s != "" {
      var n := LineLength(s);
      SplitLinesConcat(s[n..]);
      assert SplitLines(s)[1..] == SplitLines(s[n..]);
      assert s == s[..n] + s[n..];
    }
  }

  /** No line is empty. */
  lemma {:induction false} SplitLinesNonEmpty(s: string)
    decreases |s|
    ensures forall i :: 0 <= i < |SplitLines(s)| ==> SplitLines(s)[i] != ""
  {
    if s != "" {
      var n := LineLength(s);
      var tail := SplitLines(s[n..]);
      SplitLinesNonEmpty(s[n..]);
      assert SplitLines(s) == [s[..n]] + tail;
      assert forall i :: 1 <= i < |SplitLines(s)| ==> SplitLines(s)[i] == tail[i - 1];
    }
  }

  /** Every line but the last ends in a line boundary. */
  lemma {:induction false} SplitLinesBreaks(s: string)
    decreases |s|
    ensures forall i :: 0 <= i < |SplitLines(s)| - 1 ==> LastIsBreak(SplitLines(s)[i])
  {
    if s != "" {
      var n := LineLength(s);
      var tail := SplitLines(s[n..]);
      SplitLinesBreaks(s[n..]);
      assert SplitLines(s) == [s[..n]] + tail;
      if tail != [] {
        assert s[..n][n - 1] == s[n - 1];
      }
      assert forall i :: 1 <= i < |SplitLines(s)| ==> SplitLines(s)[i] == tail[i - 1];
    }
  }

  /** No line has a boundary before its end, except the '\r' of a final
      "\r\n". */
  lemma {:induction false} SplitLinesOneLine(s: string)
    decreases |s|
    ensures forall i :: 0 <= i < |SplitLines(s)| ==> OneLine(SplitLines(s)[i])
  {
    if s != "" {
      var n := LineLength(s);
      var tail := SplitLines(s[n..]);
      SplitLinesOneLine(s[n..]);
      var lines := SplitLines(s);
      assert lines == [s[..n]] + tail;
      assert OneLine(s[..n]) by {
        forall j | 0 <= j < n - 1
          ensures !IsLineBreak(s[..n][j]) || (j == n - 2 && s[..n][j] == '\r' && s[..n][j + 1] == '\n')
        {
          assert s[..n][j] == s[j] && s[..n][j + 1] == s[j + 1];
        }
      }
      assert forall i :: 1 <= i < |lines| ==> lines[i] == tail[i - 1];
    }
  }

  /** A line ending in '\r' is never followed by a line starting with '\n'.
      With SplitLinesOneLine, each line is exactly one line of the text. */
  lemma {:induction false} SplitLinesKeepsCRLF(s: string)
    decreases |s|
    ensures forall i :: 0 <= i < |SplitLines(s)| - 1 ==> !SplitsCRLF(SplitLines(s)[i], SplitLines(s)[i + 1])
  {
    if s != "" {
      var n := LineLength(s);
      var tail := SplitLines(s[n..]);
      SplitLinesKeepsCRLF(s[n..]);
      var lines := SplitLines(s);
      assert lines == [s[..n]] + tail;
      if tail != [] {
        assert !SplitsCRLF(lines[0], lines[1]) by {
          LineLengthKeepsCRLF(s);
          SplitLinesNonEmpty(s[n..]);
          assert tail[0][0] == s[n] by {
            SplitLinesConcat(s[n..]);
            assert s[n..] == tail[0] + Concat(tail[1..]);
          }
          assert lines[0][|lines[0]| - 1] == s[n - 1];
        }
      }
      assert forall i :: 1 <= i < |lines| ==> lines[i] == tail[i - 1];
    }
  }

  /** `a` ends in '\r' and `b` starts with '\n': a "\r\n" cut in two. */
  predicate SplitsCRLF(a: string, b: string) {
    a != [] && b != [] && a[|a| - 1] == '\r' && b[0] == '\n'
  }

  /** A line with no boundary before its end, "\r\n" counting as one. */
  predicate OneLine(line: string) {
    forall j :: 0 <= j < |line| - 1 ==> !IsLineBreak(line[j]) || (j == |line| - 2 && line[j] == '\r' && line[j + 1] == '\n')
  }

  /** `line` is non-empty and ends in a line boundary. */
  predicate LastIsBreak(line: string) {
    line != [] && IsLineBreak(line[|line| - 1])
  }

  /** Splitting "head\n" + rest puts "head\n" first when head holds no line
      boundary. */
  lemma SplitLinesCons(head: string, rest: string)
    requires forall j :: 0 <= j < |head| ==> !IsLineBreak(head[j])
    ensures SplitLines(head + "\n" + rest) == [head + "\n"] + SplitLines(rest)
  {
    var s := head + "\n" + rest;
    assert FirstBreak(s) == |head| by {
      assert IsLineBreak(s[|head|]);
      assert forall j :: 0 <= j < |head| ==> s[j] == head[j];
    }
    assert s[..|head| + 1] == head + "\n";
    assert s[|head| + 1..] == rest;
  }

  /** A text without any line boundary is a single line. */
  lemma SplitLinesSingle(s: string)
    requires s != ""
    requires forall j :: 0 <= j < |s| ==> !IsLineBreak(s[j])
    ensures SplitLines(s) == [s]
  {
    assert FirstBreak(s) == |s|;
    assert s[..|s|] == s;
  }
}
