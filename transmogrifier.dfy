/** The `Transmogrifier` object itself: the reST line buffer and the
    indentation depth, updated in place by its methods. Every method is
    proved against the specification functions of LineBuffer, Sections,
    Freeform and Blocks, and leaves the depth as it found it. */
module Transmogrify {
  import opened Text
  import opened Results
  import opened Schema
  import opened LineBuffer
  import opened Sections
  import opened Freeform
  import opened Blocks

  class Transmogrifier {
    /** `_result`: the generated lines with their provenance. */
    var result: seq<Entry>
    /** `indent`: the current nesting depth. */
    var indent: nat

    constructor()
      ensures result == [] && indent == 0
    {
      result := [];
      indent := 0;
    }

    /** `get_indent()`: three spaces per level of nesting, nothing else. */
    function GetIndent(): (r: string)
      reads this
      ensures |r| == 3 * indent && AllSpace(r)
    {
      Indentation(indent)
    }

    /** `add_line_raw(line, source, lineno)`. */
    method AddLineRaw(line: string, source: string, lineno: int)
      modifies this
      ensures result == old(result) + [RawEntry(indent, line, source, lineno)]
      ensures indent == old(indent)
    {
      var text := if IsBlank(line) then "" else GetIndent() + RStripNewlines(line);
      result := result + [Entry(text, source, lineno - 1)];
    }

    /** `add_line(content, info)`. */
    method AddLine(content: string, info: SourceInfo)
      modifies this
      ensures result == old(result) + [RawEntry(indent, content, info.fname, info.line)]
      ensures indent == old(indent)
    {
      AddLineRaw(content, info.fname, info.line);
    }

    /** `add_lines(content, info)`: one `add_line_raw` per line of
        `content.splitlines(True)`, the i-th credited to `info.line + i`. */
    method AddLines(content: string, info: SourceInfo)
      modifies this
      ensures result == old(result) + LinesEntries(indent, content, info)
      ensures indent == old(indent)
    {
      var lines := SplitLines(content);
      AddEach(lines, info.fname, info.line);
    }

    /** The loop of `add_lines` over the split lines. */
    method AddEach(lines: seq<string>, source: string, first: int)
      modifies this
      ensures result == old(result) + EntriesOf(indent, lines, source, first)
      ensures indent == old(indent)
    {
      for i := 0 to |lines|
        invariant result == old(result) + EntriesOf(indent, lines[..i], source, first)
        invariant indent == old(indent)
      {
        assert EntriesOf(indent, lines[..i + 1], source, first)
            == EntriesOf(indent, lines[..i], source, first) + [RawEntry(indent, lines[i], source, first + i)] by {
          assert lines[..i + 1] == lines[..i] + [lines[i]];
          EntriesOfSnoc(indent, lines[..i], lines[i], source, first);
        }
        AddLineRaw(lines[i], source, first + i);
      }
      assert lines[..|lines|] == lines;
    }

    /** `ensure_blank_line()`. */
    method EnsureBlankLine()
      modifies this
      ensures result == EnsureBlank(old(result))
      ensures indent == old(indent)
    {
      if result == [] {
        return;
      }
      var last := result[|result| - 1];
      if !IsBlank(last.text) {
        AddLineRaw("", last.source, last.line + 2);
      }
    }

    /** `visit_paragraph(section)`. */
    method VisitParagraph(section: Section)
      modifies this
      ensures result == Paragraph(old(result), old(indent), section)
      ensures indent == old(indent)
    {
      if section.text == "" {
        return;
      }
      EnsureBlankLine();
      AddLines(section.text, section.info);
      EnsureBlankLine();
    }

    /** `visit_errors(section)`. */
    method VisitErrors(section: Section)
      modifies this
      ensures result == Sections.Errors(old(result), old(indent), section)
      ensures indent == old(indent)
    {
      AddLines(":error:\n" + section.text, section.info);
    }

    /** `preamble(ent)`: on success the buffer is the one Sections.Preamble
        describes; when an assertion fails the method stops there, having
        appended the lines PreambleEmitted gives. */
    method Preamble(ent: Entity) returns (raised: Option<Failure>)
      modifies this
      ensures indent == old(indent)
      ensures raised.Some? <==> PreambleFails(ent)
      ensures raised.None? ==> result == Sections.Preamble(old(result), old(indent), ent).value
      ensures raised.Some? ==> raised == Some(Sections.Preamble(old(result), old(indent), ent).error)
      ensures raised.Some? ==> result == old(result) + PreambleEmitted(old(indent), ent)
    {
      PreambleParts(result, indent, ent);
      PreambleEmittedParts(indent, ent);
      var since := SinceLines(indent, ent);
      if ent.doc.Some? && ent.doc.value.since.Some? {
        var s := ent.doc.value.since.value;
        if s.kind != Since {
          assert result == old(result) + [];
          return Some(AssertionError("ent.doc.since.kind == QAPIDoc.Kind.SINCE"));
        }
        AddLine(":since: " + s.text, s.info);
      }
      assert result == old(result) + since.value;
      var ifcond := IfcondLines(indent, ent);
      if ent.ifcond.present {
        if ent.info.None? {
          return Some(AssertionError("ent.info"));
        }
        AddLine(":ifcond: " + ent.ifcond.docgen, ent.info.value);
      }
      ghost var before := result;
      assert before == old(result) + since.value + ifcond.value;
      raised := AddFeatures(ent.features);
      if raised.Some? {
        ghost var lines := FeatureLines(indent, ent.features[..FirstUnlocated(ent.features)]).value;
        assert result == before + lines;
        AppendAssoc(old(result), since.value, ifcond.value, lines);
        return;
      }
      EnsureBlankLine();
    }

    /** The loop of `preamble` over the entity's features: one option line
        per special feature, stopping at the first special feature without
        a source position. */
    method AddFeatures(features: seq<Feature>) returns (raised: Option<Failure>)
      modifies this
      ensures indent == old(indent)
      ensures raised.Some? <==> !SpecialsLocated(features)
      ensures raised.Some? ==> raised == Some(FeatureLines(old(indent), features).error)
      ensures raised.Some? ==> result == old(result) + FeatureLines(old(indent), features[..FirstUnlocated(features)]).value
      ensures raised.None? ==> result == old(result) + FeatureLines(old(indent), features).value
    {
      for i := 0 to |features|
        invariant FeatureLines(indent, features[..i]).Ok?
        invariant result == old(result) + FeatureLines(indent, features[..i]).value
        invariant indent == old(indent)
      {
        var feat := features[i];
        assert features[..i + 1][..i] == features[..i];
        if feat.special {
          if feat.info.None? {
            assert !SpecialsLocated(features) by {
              assert features[i] == feat;
            }
            FirstUnlocatedAt(features, i);
            return Some(AssertionError("feat.info"));
          }
          AddLine(":" + feat.name + ":", feat.info.value);
        }
      }
      assert features[..|features|] == features;
      return None;
    }

    /** `visit_module(path)`, with `stem` the file name of `path` without
        its directories and extension. */
    method VisitModule(path: string, stem: string)
      modifies this
      ensures result == Module(old(result), old(indent), path, stem)
      ensures indent == old(indent)
    {
      AddLineRaw(".. qapi:module:: " + stem, path, 1);
      EnsureBlankLine();
    }

    /** `visit_freeform(doc)`: both failures happen before anything is
        appended. */
    method VisitFreeform(doc: Doc) returns (raised: Option<Failure>)
      modifies this
      ensures indent == old(indent)
      ensures raised.Some? <==> FreeformFails(doc)
      ensures raised.None? ==> result == Freeform.Freeform(old(result), old(indent), doc).value
      ensures raised.Some? ==> raised == Some(Freeform.Freeform(old(result), old(indent), doc).error)
                               && result == old(result)
    {
      if |doc.allSections| != 1 {
        return Some(AssertionError("len(doc.all_sections) == 1"));
      }
      var text := doc.allSections[0].text;
      var info := doc.info;
      ghost var start := result;
      if MatchesHeading(text) {
        var (heading, _, rest) := Partition(text, '\n');
        var (leader, _, title) := Partition(heading, ' ');
        var level := |leader| + 1;
        var h := Heading(level, title, rest);
        assert ParseHeading(text) == Some(h);
        if level >= |Markers| {
          return Some(IndexError);
        }
        AddHeading(h, info);
        var trimmed := LStripNewlines(rest);
        text := trimmed;
        info := NextLine(info, |text| - |trimmed| + 1);
        assert info == NextLine(doc.info, BodyAdvance(rest));
        AddLines(text, info);
        EnsureBlankLine();
        assert result == Headed(start, indent, h, doc.info);
        FreeformIsHeaded(start, indent, doc, h);
      } else {
        assert ParseHeading(text) == None;
        AddLines(text, info);
        EnsureBlankLine();
      }
      return None;
    }

    /** The heading part of `visit_freeform`: a blank line ensured, the
        optional overline, the title, the underline, a blank line ensured. */
    method AddHeading(h: Heading, info: SourceInfo)
      requires h.level < |Markers|
      modifies this
      ensures result == EnsureBlank(EnsureBlank(old(result)) + HeadingEntries(old(indent), h, info))
      ensures indent == old(indent)
    {
      var overline := h.level <= 2;
      var marker := Markers[h.level];
      var bar := Repeat([marker], |h.title|);
      EnsureBlankLine();
      ghost var framed := result;
      if overline {
        AddLine(bar, info);
      }
      AddLine(h.title, info);
      AddLine(bar, info);
      assert result == framed + HeadingEntries(indent, h, info);
      EnsureBlankLine();
    }

    /** Running the body of a `with` block at the current depth. */
    method Execute(steps: seq<Step>) returns (raised: Option<Failure>)
      modifies this
      decreases steps, 0
      ensures result == Exec(old(result), old(indent), steps).entries
      ensures raised == Exec(old(result), old(indent), steps).raised
      ensures indent == old(indent)
    {
      var i := 0;
      while i < |steps|
        invariant 0 <= i <= |steps|
        invariant indent == old(indent)
        invariant Exec(old(result), indent, steps) == Exec(result, indent, steps[i..])
      {
        assert steps[i..][0] == steps[i] && steps[i..][1..] == steps[i + 1..];
        raised := ExecuteStep(steps[i]);
        if raised.Some? {
          return;
        }
        i := i + 1;
      }
      return None;
    }

    /** Running one statement of such a body. */
    method ExecuteStep(step: Step) returns (raised: Option<Failure>)
      modifies this
      decreases step
      ensures result == ExecStep(old(result), old(indent), step).entries
      ensures raised == ExecStep(old(result), old(indent), step).raised
      ensures indent == old(indent)
    {
      match step {
        case Line(line, source, lineno) =>
          AddLineRaw(line, source, lineno);
          raised := None;
        case Lines(content, info) =>
          AddLines(content, info);
          raised := None;
        case BlankLine =>
          EnsureBlankLine();
          raised := None;
        case Nested(body) =>
          raised := Indented(body);
        case Raise(error) =>
          raised := Some(error);
      }
    }

    /** `with self.indented(): body`: the body runs one level deeper, and
        the depth is restored whether or not the body raised. */
    method Indented(body: seq<Step>) returns (raised: Option<Failure>)
      modifies this
      decreases body, 1
      ensures result == Exec(old(result), old(indent) + 1, body).entries
      ensures raised == Exec(old(result), old(indent) + 1, body).raised
      ensures indent == old(indent)
    {
      indent := indent + 1;
      raised := Execute(body);
      indent := indent - 1;
    }
  }
}
