/** `visit_freeform`: a free-form documentation block, whose first line may
    be a heading in the QAPI micro-syntax ("= Title", "== Subtitle", ...),
    rewritten as a reST section title. */
module Freeform {
  import opened Text
  import opened Results
  import opened Schema
  import opened LineBuffer
  import opened Sections

  /** The reST section adornment character for each heading level (index 0
      is never used: the containing document is level 0). */
  const Markers: string := " #*=_^\""

  /** A parsed heading line: its level, its title, and the text after it. */
  datatype Heading = Heading(level: nat, title: string, rest: string)

  /** The heading of a free-form text that matches `=+ `: the text is split
      at its first newline, the first line at its first space; the level is
      one more than the number of '='. */
  function ParseHeading(text: string): (h: Option<Heading>)
    ensures h.Some? <==> MatchesHeading(text)
    ensures h.Some? ==> h.value.level == CountLeading(text, '=') + 1 && '\n' !in h.value.title
  {
    if !MatchesHeading(text) then None
    else
      var (first, _, rest) := Partition(text, '\n');
      var (leader, _, title) := Partition(first, ' ');
      LeaderIsRun(text);
      Some(Heading(|leader| + 1, title, rest))
  }

  /** In a matching text the part before the first space of the first line
      is exactly the run of '='. */
  lemma LeaderIsRun(text: string)
    requires MatchesHeading(text)
    ensures |Partition(Partition(text, '\n').0, ' ').0| == CountLeading(text, '=')
    ensures '\n' !in Partition(Partition(text, '\n').0, ' ').2
  {
    var n := CountLeading(text, '=');
    var first := Partition(text, '\n').0;
    assert IndexOf(text, '\n') > n;
    assert first == text[..IndexOf(text, '\n')];
    assert first[n] == ' ' && forall j :: 0 <= j < n ==> first[j] == '=';
    assert IndexOf(first, ' ') == n;
    var title := Partition(first, ' ').2;
    assert title == first[n + 1..];
    assert '\n' !in first;
  }

  /** The facts about a heading line `=...= title` the parse relies on. */
  lemma HeadingLine(k: nat, title: string)
    requires k >= 1 && '\n' !in title
    ensures var line := Repeat("=", k) + " " + title;
      && CountLeading(line, '=') == k && line[k] == ' ' && MatchesHeading(line)
      && '\n' !in line && IndexOf(line, ' ') == k && line[k + 1..] == title
  {
    var lead := Repeat("=", k);
    var line := lead + " " + title;
    RepeatAll("=", k);
    assert forall j :: 0 <= j < k ==> line[j] == lead[j];
    assert line[k] == ' ';
    CountLeadingAt(line, '=', k);
    assert '\n' !in lead;
    assert line == lead + (" " + title);
  }

  /** A heading line built from its parts parses back into those parts. */
  lemma ParseHeadingOfParts(k: nat, title: string, rest: string)
    requires k >= 1 && '\n' !in title
    ensures ParseHeading(Repeat("=", k) + " " + title + "\n" + rest) == Some(Heading(k + 1, title, rest))
  {
    var line := Repeat("=", k) + " " + title;
    var text := line + "\n" + rest;
    HeadingLine(k, title);
    assert MatchesHeading(text) && CountLeading(text, '=') == k by {
      assert forall j :: 0 <= j < |line| ==> text[j] == line[j];
      CountLeadingAt(text, '=', k);
    }
    assert Partition(text, '\n') == (line, "\n", rest) by {
      assert forall j :: 0 <= j < |line| ==> text[j] == line[j];
      assert IndexOf(text, '\n') == |line| by {
        assert text[|line|] == '\n';
      }
      assert text[..|line|] == line && text[|line| + 1..] == rest;
    }
    LineParts(k, title);
  }

  /** A heading line without a newline parses with an empty rest. */
  lemma ParseHeadingOfLine(k: nat, title: string)
    requires k >= 1 && '\n' !in title
    ensures ParseHeading(Repeat("=", k) + " " + title) == Some(Heading(k + 1, title, ""))
  {
    var line := Repeat("=", k) + " " + title;
    HeadingLine(k, title);
    assert Partition(line, '\n') == (line, "", "");
    LineParts(k, title);
  }

  /** The first line splits at its first space into the '=' run and the title. */
  lemma LineParts(k: nat, title: string)
    requires k >= 1 && '\n' !in title
    ensures Partition(Repeat("=", k) + " " + title, ' ') == (Repeat("=", k), " ", title)
  {
    var line := Repeat("=", k) + " " + title;
    HeadingLine(k, title);
    assert line[..k] == Repeat("=", k);
  }

  /** Conversely, a parsed heading is the '=' run, a space, the title and,
      if the text has a newline, the newline and the rest. */
  lemma ParseHeadingParts(text: string)
    requires ParseHeading(text).Some?
    ensures var h := ParseHeading(text).value;
      && h.level >= 2
      && ('\n' in text ==> text == Repeat("=", h.level - 1) + " " + h.title + "\n" + h.rest)
      && ('\n' !in text ==> text == Repeat("=", h.level - 1) + " " + h.title && h.rest == "")
  {
    var h := ParseHeading(text).value;
    var first := Partition(text, '\n').0;
    assert first == Repeat("=", h.level - 1) + " " + h.title by {
      FirstLineParts(text);
    }
    assert h.rest == Partition(text, '\n').2;
  }

  /** The first line of a heading text is the '=' run, a space and the title. */
  lemma FirstLineParts(text: string)
    requires ParseHeading(text).Some?
    ensures Partition(text, '\n').0 == Repeat("=", CountLeading(text, '=')) + " " + ParseHeading(text).value.title
  {
    var n := CountLeading(text, '=');
    var lead := Repeat("=", n);
    var first := Partition(text, '\n').0;
    LeaderIsRun(text);
    assert first[..n] == lead by {
      RepeatAll("=", n);
      assert first[..n] == text[..n];
    }
    assert IndexOf(first, ' ') == n;
  }

  /** The two or three adornment and title lines of a heading, all credited
      to the block's first line: an overline for levels up to 2, the title,
      an underline, each adornment as long as the title. */
  function HeadingEntries(depth: nat, h: Heading, info: SourceInfo): (r: seq<Entry>)
    requires h.level < |Markers|
    ensures |r| == if h.level <= 2 then 3 else 2
    ensures forall i :: 0 <= i < |r| ==> r[i].source == info.fname && r[i].line == info.line - 1
  {
    var bar := Repeat([Markers[h.level]], |h.title|);
    (if h.level <= 2 then [RawEntry(depth, bar, info.fname, info.line)] else [])
      + [RawEntry(depth, h.title, info.fname, info.line), RawEntry(depth, bar, info.fname, info.line)]
  }

  /** How far the body's source position is advanced past the heading line:
      the number of newlines eaten plus one, computed after the text has been
      replaced by its trimmed version, and so always 1. */
  function BodyAdvance(rest: string): (n: int)
    ensures n == 1
  {
    var trimmed := LStripNewlines(rest);
    var text := trimmed;
    |text| - |trimmed| + 1
  }

  /** Why `visit_freeform` can fail: not exactly one section, or a heading
      of level 7 or more, whose marker index is past the end of the table. */
  predicate FreeformFails(doc: Doc) {
    || |doc.allSections| != 1
    || (MatchesHeading(doc.allSections[0].text) && CountLeading(doc.allSections[0].text, '=') + 1 >= |Markers|)
  }

  /** The output for a block with a heading: a blank line ensured, the
      heading lines, a blank line ensured, the body with its leading
      newlines eaten, a blank line ensured. */
  function Headed(buf: seq<Entry>, depth: nat, h: Heading, info: SourceInfo): (r: seq<Entry>)
    requires h.level < |Markers|
    ensures buf <= r && r != [] && IsBlank(Last(r).text)
  {
    var titled := EnsureBlank(EnsureBlank(buf) + HeadingEntries(depth, h, info));
    var body := LStripNewlines(h.rest);
    assert buf <= EnsureBlank(buf) + HeadingEntries(depth, h, info);
    var r := EnsureBlank(titled + LinesEntries(depth, body, NextLine(info, BodyAdvance(h.rest))));
    assert titled <= titled + LinesEntries(depth, body, NextLine(info, BodyAdvance(h.rest)));
    r
  }

  /** `visit_freeform(doc)`: the optional heading, its blank lines, then the
      body as a block, with a blank line ensured at the end. */
  function Freeform(buf: seq<Entry>, depth: nat, doc: Doc): (r: Result<seq<Entry>>)
    ensures r.Err? <==> FreeformFails(doc)
    ensures r.Ok? ==> buf <= r.value && (r.value != [] ==> IsBlank(Last(r.value).text))
  {
    if |doc.allSections| != 1 then Err(AssertionError("len(doc.all_sections) == 1"))
    else
      var text := doc.allSections[0].text;
      match ParseHeading(text)
      case None => Ok(EnsureBlank(buf + LinesEntries(depth, text, doc.info)))
      case Some(h) => if h.level >= |Markers| then Err(IndexError) else Ok(Headed(buf, depth, h, doc.info))
  }

  /** Every marker a heading can use is a visible character. */
  lemma MarkersVisible(level: nat)
    requires 2 <= level < |Markers|
    ensures !IsSpace(Markers[level]) && Markers[level] != '\n'
  {
  }

  /** An adornment line is stored indented and unchanged. */
  lemma BarEntry(depth: nat, level: nat, width: nat, info: SourceInfo)
    requires 2 <= level < |Markers| && width > 0
    ensures var bar := Repeat([Markers[level]], width);
      RawEntry(depth, bar, info.fname, info.line) == Entry(Indentation(depth) + bar, info.fname, info.line - 1)
      && !IsBlank(Indentation(depth) + bar)
  {
    var bar := Repeat([Markers[level]], width);
    MarkersVisible(level);
    RepeatAll([Markers[level]], width);
    RawEntryVisible(depth, bar, info.fname, info.line);
  }

  /** What a heading of `k` '=' (1 to 5) and a visible title becomes: an
      overline only for a single '=', the title, and an underline in the
      marker of level k + 1 and as long as the title, all credited to the
      block's first line. */
  function Adorned(depth: nat, k: nat, title: string, info: SourceInfo): (r: seq<Entry>)
    requires 1 <= k <= 5
    ensures |r| == if k == 1 then 3 else 2
  {
    var ind := Indentation(depth);
    var bar := Repeat([Markers[k + 1]], |title|);
    (if k == 1 then [Entry(ind + bar, info.fname, info.line - 1)] else [])
      + [Entry(ind + title, info.fname, info.line - 1), Entry(ind + bar, info.fname, info.line - 1)]
  }

  /** The adorned title followed by one blank line credited to the line
      after the heading. */
  function TitleBlock(depth: nat, k: nat, title: string, info: SourceInfo): (r: seq<Entry>)
    requires 1 <= k <= 5
    ensures |r| == if k == 1 then 4 else 3
  {
    Adorned(depth, k, title, info) + [Entry("", info.fname, info.line)]
  }

  /** A free-form block whose first line is a heading of `k` '=' (1 to 5)
      and a visible title: a blank line ensured, the title block, then the
      body, its leading newlines eaten, credited from the line after the
      heading on, and a blank line ensured. */
  lemma FreeformHeadingLayout(buf: seq<Entry>, depth: nat, doc: Doc, k: nat, title: string, body: string)
    requires |doc.allSections| == 1
    requires doc.allSections[0].text == Repeat("=", k) + " " + title + "\n" + body
    requires 1 <= k <= 5 && '\n' !in title && title != [] && !IsSpace(title[0])
    ensures Freeform(buf, depth, doc)
         == Ok(EnsureBlank(EnsureBlank(buf) + TitleBlock(depth, k, title, doc.info)
                           + LinesEntries(depth, LStripNewlines(body), NextLine(doc.info, 1))))
  {
    var h := Heading(k + 1, title, body);
    var he := HeadingEntries(depth, h, doc.info);
    var lines := LinesEntries(depth, LStripNewlines(body), NextLine(doc.info, 1));
    assert EnsureBlank(EnsureBlank(buf) + he) == EnsureBlank(buf) + TitleBlock(depth, k, title, doc.info) by {
      TitledLayout(buf, depth, k, title, body, doc.info);
    }
    assert Freeform(buf, depth, doc) == Ok(EnsureBlank(EnsureBlank(EnsureBlank(buf) + he) + lines)) by {
      ParseHeadingOfParts(k, title, body);
      FreeformOfHeading(buf, depth, doc, h);
    }
  }

  /** The heading lines, then the blank line after the underline. */
  lemma TitledLayout(buf: seq<Entry>, depth: nat, k: nat, title: string, rest: string, info: SourceInfo)
    requires 1 <= k <= 5 && '\n' !in title && title != [] && !IsSpace(title[0])
    ensures EnsureBlank(EnsureBlank(buf) + HeadingEntries(depth, Heading(k + 1, title, rest), info))
         == EnsureBlank(buf) + TitleBlock(depth, k, title, info)
  {
    HeadingLines(depth, k, title, rest, info);
    AfterUnderline(EnsureBlank(buf), depth, k, title, info);
  }

  /** The underline is never blank, so a blank line follows it. */
  lemma AfterUnderline(prefix: seq<Entry>, depth: nat, k: nat, title: string, info: SourceInfo)
    requires 1 <= k <= 5 && title != []
    ensures EnsureBlank(prefix + Adorned(depth, k, title, info)) == prefix + TitleBlock(depth, k, title, info)
  {
    var a := Adorned(depth, k, title, info);
    var bar := Repeat([Markers[k + 1]], |title|);
    var b1 := prefix + a;
    assert Last(b1) == Entry(Indentation(depth) + bar, info.fname, info.line - 1);
    assert !IsBlank(Last(b1).text) by {
      BarEntry(depth, k + 1, |title|, info);
    }
    assert b1 + [Entry("", info.fname, info.line)] == prefix + TitleBlock(depth, k, title, info);
  }

  /** A block with a heading of at most level 6 is rendered by Headed. */
  lemma FreeformIsHeaded(buf: seq<Entry>, depth: nat, doc: Doc, h: Heading)
    requires |doc.allSections| == 1 && ParseHeading(doc.allSections[0].text) == Some(h)
    requires h.level < |Markers|
    ensures Freeform(buf, depth, doc) == Ok(Headed(buf, depth, h, doc.info))
  {
  }

  /** `visit_freeform` on a block with a heading of at most level 6. */
  lemma FreeformOfHeading(buf: seq<Entry>, depth: nat, doc: Doc, h: Heading)
    requires |doc.allSections| == 1 && ParseHeading(doc.allSections[0].text) == Some(h)
    requires h.level < |Markers|
    ensures Freeform(buf, depth, doc)
         == Ok(EnsureBlank(EnsureBlank(EnsureBlank(buf) + HeadingEntries(depth, h, doc.info))
                           + LinesEntries(depth, LStripNewlines(h.rest), NextLine(doc.info, 1))))
  {
    FreeformIsHeaded(buf, depth, doc, h);
  }

  /** The heading's own lines, each stored indented and unchanged. */
  lemma HeadingLines(depth: nat, k: nat, title: string, rest: string, info: SourceInfo)
    requires 1 <= k <= 5 && '\n' !in title && title != [] && !IsSpace(title[0])
    ensures HeadingEntries(depth, Heading(k + 1, title, rest), info) == Adorned(depth, k, title, info)
  {
    var ind := Indentation(depth);
    var bar := Repeat([Markers[k + 1]], |title|);
    assert RawEntry(depth, bar, info.fname, info.line) == Entry(ind + bar, info.fname, info.line - 1) by {
      BarEntry(depth, k + 1, |title|, info);
    }
    assert RawEntry(depth, title, info.fname, info.line) == Entry(ind + title, info.fname, info.line - 1) by {
      assert title[|title| - 1] != '\n';
      RawEntryVisible(depth, title, info.fname, info.line);
    }
  }

  /** Without a heading, a free-form block appends its lines directly after
      whatever the buffer ends with, then ensures a blank line. */
  lemma FreeformPlain(buf: seq<Entry>, depth: nat, doc: Doc)
    requires |doc.allSections| == 1 && !MatchesHeading(doc.allSections[0].text)
    ensures Freeform(buf, depth, doc) == Ok(EnsureBlank(buf + LinesEntries(depth, doc.allSections[0].text, doc.info)))
  {
  }

  /** Without a heading, a free-form block is a paragraph when the buffer
      already ends in a blank line (or is empty): only the blank line before
      the text is not ensured. */
  lemma FreeformPlainIsParagraph(buf: seq<Entry>, depth: nat, doc: Doc)
    requires |doc.allSections| == 1 && !MatchesHeading(doc.allSections[0].text)
    requires buf == [] || IsBlank(Last(buf).text)
    ensures Freeform(buf, depth, doc)
         == Ok(Paragraph(buf, depth, doc.allSections[0].(info := doc.info)))
  {
    var text := doc.allSections[0].text;
    assert ParseHeading(text) == None;
    assert EnsureBlank(buf) == buf;
    if text == "" {
      assert buf + LinesEntries(depth, text, doc.info) == buf;
    }
  }
}
