/** The generated reST as a value: an ordered list of lines, each carrying
    the file and the zero-based line number it is credited to, and the
    three primitive ways the transmogrifier extends it (`add_line_raw`,
    `add_lines`, `ensure_blank_line`). */
module LineBuffer {
  import opened Text
  import opened Schema

  /** One entry of the `StringList`: its text and its provenance. The line
      number is zero-based, as Sphinx counts lines. */
  datatype Entry = Entry(text: string, source: string, line: int)

  /** `get_indent()` at depth `depth`: three spaces per level. */
  function Indentation(depth: nat): (r: string)
    ensures |r| == 3 * depth
    ensures AllSpace(r)
  {
    RepeatSpace("   ", depth);
    Repeat("   ", depth)
  }

  /** The entry `add_line_raw(line, source, lineno)` appends at depth `depth`:
      a blank line is stored as "", any other line indented and without its
      trailing newlines; the one-based `lineno` becomes zero-based. */
  function RawEntry(depth: nat, line: string, source: string, lineno: int): (e: Entry)
    ensures e.source == source && e.line == lineno - 1
  {
    var text := if IsBlank(line) then "" else Indentation(depth) + RStripNewlines(line);
    Entry(text, source, lineno - 1)
  }

  /** Removing trailing newlines keeps every non-whitespace character. */
  lemma StripNewlinesKeepsText(line: string)
    requires !AllSpace(line)
    ensures !AllSpace(RStripNewlines(line))
  {
    var body := RStripNewlines(line);
    var i :| 0 <= i < |line| && !IsSpace(line[i]);
    assert body[i] == line[i];
  }

  /** A stored line is blank exactly when the given line is, and a blank
      line is stored as the empty string. */
  lemma RawEntryBlankIff(depth: nat, line: string, source: string, lineno: int)
    ensures var t := RawEntry(depth, line, source, lineno).text;
      && (IsBlank(t) <==> IsBlank(line))
      && (IsBlank(line) ==> t == "")
  {
    var t := RawEntry(depth, line, source, lineno).text;
    if !IsBlank(line) {
      var ind := Indentation(depth);
      var body := RStripNewlines(line);
      assert t == ind + body;
      StripNewlinesKeepsText(line);
      var i :| 0 <= i < |body| && !IsSpace(body[i]);
      assert t[|ind| + i] == body[i];
    } else {
      assert t == "";
      assert Strip("") == "";
    }
  }

  /** A non-blank line is stored as the indentation followed by the line
      minus a run of trailing newlines, and the stored text never ends in a
      newline. */
  lemma RawEntryNonBlank(depth: nat, line: string, source: string, lineno: int)
    requires !IsBlank(line)
    ensures var t := RawEntry(depth, line, source, lineno).text;
      && |Indentation(depth)| < |t|
      && t[..|Indentation(depth)|] == Indentation(depth)
      && var body := t[|Indentation(depth)|..];
         && line[..|body|] == body
         && (forall i :: |body| <= i < |line| ==> line[i] == '\n')
         && t[|t| - 1] != '\n'
  {
    var t := RawEntry(depth, line, source, lineno).text;
    var ind := Indentation(depth);
    var body := RStripNewlines(line);
    assert t == ind + body;
    assert t[|ind|..] == body;
    assert t[..|ind|] == ind;
  }

  /** A line that starts with a visible character and carries no trailing
      newline is stored indented and otherwise unchanged. */
  lemma RawEntryVisible(depth: nat, line: string, source: string, lineno: int)
    requires line != [] && !IsSpace(line[0]) && line[|line| - 1] != '\n'
    ensures RawEntry(depth, line, source, lineno) == Entry(Indentation(depth) + line, source, lineno - 1)
    ensures !IsBlank(Indentation(depth) + line)
  {
    var t := Indentation(depth) + line;
    assert t[|Indentation(depth)|] == line[0];
  }

  /** The same line followed by one newline is stored the same way. */
  lemma RawEntryVisibleNewline(depth: nat, line: string, source: string, lineno: int)
    requires line != [] && !IsSpace(line[0]) && line[|line| - 1] != '\n'
    ensures RawEntry(depth, line + "\n", source, lineno) == Entry(Indentation(depth) + line, source, lineno - 1)
  {
    var l := line + "\n";
    assert l[0] == line[0];
    assert l[..|l| - 1] == line;
  }

  function Last(buf: seq<Entry>): Entry
    requires buf != []
  {
    buf[|buf| - 1]
  }

  /** `ensure_blank_line()`: nothing on an empty buffer or after a blank
      line; otherwise one blank line, credited to the line after the last
      one (one-based `line + 2`, so zero-based `line + 1`). */
  function EnsureBlank(buf: seq<Entry>): (r: seq<Entry>)
    ensures buf <= r && |r| <= |buf| + 1
    ensures buf == [] ==> r == []
    ensures buf != [] ==> IsBlank(Last(r).text)
    ensures buf != [] && IsBlank(Last(buf).text) ==> r == buf
    ensures buf != [] && !IsBlank(Last(buf).text) ==> r == buf + [Entry("", Last(buf).source, Last(buf).line + 1)]
  {
    if buf == [] || IsBlank(Last(buf).text) then buf
    else buf + [RawEntry(0, "", Last(buf).source, Last(buf).line + 2)]
  }

  /** Ensuring a blank line twice is ensuring it once. */
  lemma EnsureBlankIdempotent(buf: seq<Entry>)
    ensures EnsureBlank(EnsureBlank(buf)) == EnsureBlank(buf)
  {
  }

  /** The entries `add_line_raw` appends for `lines`, the i-th credited to
      one-based line `first + i` of `source`. */
  function EntriesOf(depth: nat, lines: seq<string>, source: string, first: int): (r: seq<Entry>)
    ensures |r| == |lines|
    ensures forall i :: 0 <= i < |r| ==> r[i] == RawEntry(depth, lines[i], source, first + i)
  {
    seq(|lines|, i requires 0 <= i < |lines| => RawEntry(depth, lines[i], source, first + i))
  }

  /** Appending three pieces one after another is appending them joined. */
  lemma AppendAssoc(buf: seq<Entry>, a: seq<Entry>, b: seq<Entry>, c: seq<Entry>)
    ensures buf + a + b + c == buf + (a + b + c)
  {
  }

  /** Extending the list of lines by one extends the entries by one. */
  lemma EntriesOfSnoc(depth: nat, lines: seq<string>, line: string, source: string, first: int)
    ensures EntriesOf(depth, lines + [line], source, first)
         == EntriesOf(depth, lines, source, first) + [RawEntry(depth, line, source, first + |lines|)]
  {
    assert EntriesOf(depth, lines + [line], source, first)[|lines|] == RawEntry(depth, line, source, first + |lines|);
  }

  /** `add_lines(content, info)`: one entry per line of `content`
      (`splitlines(True)`), numbered consecutively from `info.line`. */
  function LinesEntries(depth: nat, content: string, info: SourceInfo): (r: seq<Entry>)
    ensures |r| == |SplitLines(content)|
    ensures forall i :: 0 <= i < |r| ==> r[i].source == info.fname && r[i].line == info.line + i - 1
    ensures r == [] <==> content == ""
  {
    EntriesOf(depth, SplitLines(content), info.fname, info.line)
  }

  /** `add_lines` on text made of a first line and the rest is the entry of
      that first line followed by `add_lines` on the rest, one line further on. */
  lemma LinesEntriesCons(depth: nat, head: string, rest: string, info: SourceInfo)
    requires forall j :: 0 <= j < |head| ==> !IsLineBreak(head[j])
    ensures LinesEntries(depth, head + "\n" + rest, info)
         == [RawEntry(depth, head + "\n", info.fname, info.line)] + LinesEntries(depth, rest, NextLine(info, 1))
  {
    var line := head + "\n";
    var lines := SplitLines(rest);
    calc {
      LinesEntries(depth, head + "\n" + rest, info);
      == { SplitLinesCons(head, rest); }
      EntriesOf(depth, [line] + lines, info.fname, info.line);
      == { EntriesOfCons(depth, line, lines, info.fname, info.line); }
      [RawEntry(depth, line, info.fname, info.line)] + EntriesOf(depth, lines, info.fname, info.line + 1);
    }
  }

  /** The entries of a first line and more lines are that line's entry
      followed by the entries of the others, one line further on. */
  lemma EntriesOfCons(depth: nat, line: string, lines: seq<string>, source: string, first: int)
    ensures EntriesOf(depth, [line] + lines, source, first)
         == [RawEntry(depth, line, source, first)] + EntriesOf(depth, lines, source, first + 1)
  {
    var l := EntriesOf(depth, [line] + lines, source, first);
    var r := [RawEntry(depth, line, source, first)] + EntriesOf(depth, lines, source, first + 1);
    assert |l| == |r|;
    forall i | 0 <= i < |l| ensures l[i] == r[i] {
      if i > 0 {
        assert ([line] + lines)[i] == lines[i - 1];
      }
    }
  }
}
