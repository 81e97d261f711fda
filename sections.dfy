/** What the section transmogrifiers of `Transmogrifier` append to the
    buffer: `visit_paragraph`, `visit_errors`, `preamble` and
    `visit_module`, each a function of the buffer before the call and the
    current indentation depth. */
module Sections {
  import opened Text
  import opened Results
  import opened Schema
  import opened LineBuffer

  /** `visit_paragraph(section)`: an empty text adds nothing; otherwise the
      text's lines, with a blank line ensured before and after them. */
  function Paragraph(buf: seq<Entry>, depth: nat, section: Section): (r: seq<Entry>)
    ensures section.text == "" ==> r == buf
    ensures section.text != "" ==> buf <= r && |r| > |buf| && IsBlank(Last(r).text)
  {
    if section.text == "" then buf
    else EnsureBlank(EnsureBlank(buf) + LinesEntries(depth, section.text, section.info))
  }

  /** A non-empty paragraph is framed: a blank line ensured, every line of
      its text in order, then at most one more entry, which is blank. */
  lemma ParagraphFramed(buf: seq<Entry>, depth: nat, section: Section)
    requires section.text != ""
    ensures var r := Paragraph(buf, depth, section);
      var body := EnsureBlank(buf) + LinesEntries(depth, section.text, section.info);
      && body <= r && |r| <= |body| + 1
      && (forall i :: |body| <= i < |r| ==> r[i].text == "")
      && (buf != [] ==> IsBlank(Last(EnsureBlank(buf)).text))
  {
  }

  /** `visit_errors(section)`: the text, preceded by an ":error:" line, as
      one block starting at the section's line. */
  function Errors(buf: seq<Entry>, depth: nat, section: Section): (r: seq<Entry>)
    ensures buf <= r && |r| > |buf|
  {
    buf + LinesEntries(depth, ":error:\n" + section.text, section.info)
  }

  /** The ":error:" marker is one visible line. */
  lemma ErrorMarker()
    ensures var m := ":error:";
      && (forall j :: 0 <= j < |m| ==> !IsLineBreak(m[j]))
      && m != [] && !IsSpace(m[0]) && m[|m| - 1] != '\n'
  {
    var m := ":error:";
    assert forall j :: 0 <= j < |m| ==> ':' <= m[j] <= 'r';
  }

  /** `visit_errors` credits the ":error:" marker to the section's first
      line and passes the raw text through, each line one further on, with
      no indentation beyond the current depth. */
  lemma ErrorsLayout(buf: seq<Entry>, depth: nat, section: Section)
    ensures Errors(buf, depth, section)
         == buf + [Entry(Indentation(depth) + ":error:", section.info.fname, section.info.line - 1)]
                + LinesEntries(depth, section.text, NextLine(section.info, 1))
  {
    var head := Entry(Indentation(depth) + ":error:", section.info.fname, section.info.line - 1);
    var tail := LinesEntries(depth, section.text, NextLine(section.info, 1));
    assert LinesEntries(depth, ":error:\n" + section.text, section.info) == [head] + tail by {
      ErrorLines(depth, section.text, section.info);
    }
    assert buf + ([head] + tail) == buf + [head] + tail;
  }

  /** The lines of ":error:\n" + text: the marker, then the text's lines. */
  lemma ErrorLines(depth: nat, text: string, info: SourceInfo)
    ensures LinesEntries(depth, ":error:\n" + text, info)
         == [Entry(Indentation(depth) + ":error:", info.fname, info.line - 1)] + LinesEntries(depth, text, NextLine(info, 1))
  {
    ErrorMarker();
    MarkedLines(depth, ":error:", text, info);
    assert ":error:\n" + text == ":error:" + "\n" + text;
  }

  /** A visible one-line marker, a newline and a text: the marker's entry,
      then the text's lines one line further on. */
  lemma MarkedLines(depth: nat, marker: string, text: string, info: SourceInfo)
    requires forall j :: 0 <= j < |marker| ==> !IsLineBreak(marker[j])
    requires marker != [] && !IsSpace(marker[0]) && marker[|marker| - 1] != '\n'
    ensures LinesEntries(depth, marker + "\n" + text, info)
         == [Entry(Indentation(depth) + marker, info.fname, info.line - 1)] + LinesEntries(depth, text, NextLine(info, 1))
  {
    LinesEntriesCons(depth, marker, text, info);
    RawEntryVisibleNewline(depth, marker, info.fname, info.line);
  }

  /** The ":since:" option line, if the entity's documentation has a since
      section; that section must be of kind SINCE. */
  function SinceLines(depth: nat, ent: Entity): (r: Result<seq<Entry>>)
    ensures r.Err? <==> ent.doc.Some? && ent.doc.value.since.Some? && ent.doc.value.since.value.kind != Since
    ensures r.Err? ==> r.error == AssertionError("ent.doc.since.kind == QAPIDoc.Kind.SINCE")
    ensures !(ent.doc.Some? && ent.doc.value.since.Some?) ==> r == Ok([])
    ensures r.Ok? ==> |r.value| <= 1
  {
    if ent.doc.Some? && ent.doc.value.since.Some? then
      var since := ent.doc.value.since.value;
      if since.kind != Since then Err(AssertionError("ent.doc.since.kind == QAPIDoc.Kind.SINCE"))
      else Ok([RawEntry(depth, ":since: " + since.text, since.info.fname, since.info.line)])
    else Ok([])
  }

  /** The ":ifcond:" option line, if a condition is present; the entity
      must then have a source position. */
  function IfcondLines(depth: nat, ent: Entity): (r: Result<seq<Entry>>)
    ensures r.Err? <==> ent.ifcond.present && ent.info.None?
    ensures r.Err? ==> r.error == AssertionError("ent.info")
    ensures !ent.ifcond.present ==> r == Ok([])
    ensures r.Ok? ==> |r.value| <= 1
  {
    if ent.ifcond.present then
      if ent.info.None? then Err(AssertionError("ent.info"))
      else Ok([RawEntry(depth, ":ifcond: " + ent.ifcond.docgen, ent.info.value.fname, ent.info.value.line)])
    else Ok([])
  }

  /** Every special feature has a source position. */
  predicate SpecialsLocated(features: seq<Feature>) {
    forall i :: 0 <= i < |features| && features[i].special ==> features[i].info.Some?
  }

  /** The index of the first special feature without a source position,
      or the number of features when there is none. */
  function FirstUnlocated(features: seq<Feature>): (k: nat)
    ensures k <= |features|
    ensures SpecialsLocated(features[..k])
    ensures k < |features| ==> features[k].special && features[k].info.None?
    ensures k == |features| <==> SpecialsLocated(features)
  {
    if features == [] then 0
    else if features[0].special && features[0].info.None? then 0
    else
      var k := 1 + FirstUnlocated(features[1..]);
      assert forall i :: 1 <= i < k ==> features[..k][i] == features[1..][..k - 1][i - 1];
      k
  }

  /** A located prefix followed by an unlocated special feature ends at
      the first unlocated one. */
  lemma {:induction false} FirstUnlocatedAt(features: seq<Feature>, i: nat)
    requires i < |features| && SpecialsLocated(features[..i])
    requires features[i].special && features[i].info.None?
    ensures FirstUnlocated(features) == i
  {
    if i > 0 {
      assert features[0] == features[..i][0];
      var tail := features[1..][..i - 1];
      assert tail == features[..i][1..];
      assert SpecialsLocated(tail) by {
        forall j | 0 <= j < i - 1 && tail[j].special
          ensures tail[j].info.Some?
        {
          assert tail[j] == features[..i][j + 1];
        }
      }
      FirstUnlocatedAt(features[1..], i - 1);
    }
  }

  /** The special features, in declaration order. */
  function Specials(features: seq<Feature>): (r: seq<Feature>)
    ensures |r| <= |features|
  {
    if features == [] then []
    else
      var init := Specials(features[..|features| - 1]);
      var f := features[|features| - 1];
      if f.special then init + [f] else init
  }

  /** A feature is among the special ones exactly when it is one of the
      features and is special. */
  lemma {:induction false} SpecialsMembers(features: seq<Feature>)
    ensures forall f :: f in Specials(features) <==> f in features && f.special
  {
    if features != [] {
      var init := features[..|features| - 1];
      var f := features[|features| - 1];
      SpecialsMembers(init);
      assert features == init + [f];
    }
  }

  /** Splitting the features splits their special ones at the same place. */
  lemma {:induction false} SpecialsAppend(a: seq<Feature>, b: seq<Feature>)
    decreases |b|
    ensures Specials(a + b) == Specials(a) + Specials(b)
  {
    if b == [] {
      assert a + b == a;
    } else {
      var init := b[..|b| - 1];
      var f := b[|b| - 1];
      var last := if f.special then [f] else [];
      SpecialsAppend(a, init);
      assert Specials(a + b) == Specials(a + init) + last by {
        assert (a + b)[..|a + b| - 1] == a + init;
        assert (a + b)[|a + b| - 1] == f;
      }
      assert Specials(b) == Specials(init) + last;
    }
  }

  /** Each feature keeps its place among the special ones: a special
      feature appears once, between the special features before it and
      those after it; any other feature does not appear. */
  lemma SpecialsOrder(a: seq<Feature>, f: Feature, b: seq<Feature>)
    ensures Specials(a + [f] + b) == Specials(a) + (if f.special then [f] else []) + Specials(b)
  {
    SpecialsAppend(a + [f], b);
    SpecialsAppend(a, [f]);
    assert [f][..0] == [];
  }

  /** The option line of a special feature. */
  function FeatureEntry(depth: nat, f: Feature): Entry
    requires f.info.Some?
  {
    RawEntry(depth, ":" + f.name + ":", f.info.value.fname, f.info.value.line)
  }

  /** One ":name:" line per special feature, in declaration order, as the
      loop over `ent.features` appends them; a special feature without a
      source position fails the loop's assertion. */
  function FeatureLines(depth: nat, features: seq<Feature>): (r: Result<seq<Entry>>)
    ensures r.Ok? <==> SpecialsLocated(features)
    ensures r.Err? ==> r.error == AssertionError("feat.info")
  {
    if features == [] then Ok([])
    else
      var init :- FeatureLines(depth, features[..|features| - 1]);
      var f := features[|features| - 1];
      if !f.special then Ok(init)
      else if f.info.None? then Err(AssertionError("feat.info"))
      else Ok(init + [FeatureEntry(depth, f)])
  }

  /** The feature lines are exactly the special features' lines, one each,
      in the order the features are declared. */
  lemma {:induction false} FeatureLinesAreSpecials(depth: nat, features: seq<Feature>)
    requires SpecialsLocated(features)
    ensures var r := FeatureLines(depth, features).value;
      var s := Specials(features);
      && |r| == |s|
      && forall i :: 0 <= i < |s| ==> s[i].info.Some? && r[i] == FeatureEntry(depth, s[i])
  {
    if features != [] {
      var init := features[..|features| - 1];
      var f := features[|features| - 1];
      assert SpecialsLocated(init) by {
        forall i | 0 <= i < |init| && init[i].special ensures init[i].info.Some? {
          assert init[i] == features[i];
        }
      }
      FeatureLinesAreSpecials(depth, init);
      if f.special {
        assert f.info.Some? by {
          assert features[|features| - 1] == f;
        }
      }
    }
  }

  /** Why `preamble` can fail: one of its three assertions. */
  predicate PreambleFails(ent: Entity) {
    || (ent.doc.Some? && ent.doc.value.since.Some? && ent.doc.value.since.value.kind != Since)
    || (ent.ifcond.present && ent.info.None?)
    || !SpecialsLocated(ent.features)
  }

  /** `preamble(ent)`: ":since:", then ":ifcond:", then one option per
      special feature, then a blank line ensured. */
  function Preamble(buf: seq<Entry>, depth: nat, ent: Entity): (r: Result<seq<Entry>>)
    ensures r.Err? <==> PreambleFails(ent)
    ensures r.Ok? ==> buf <= r.value && (r.value != [] ==> IsBlank(Last(r.value).text))
  {
    var since :- SinceLines(depth, ent);
    var ifcond :- IfcondLines(depth, ent);
    var features :- FeatureLines(depth, ent.features);
    var r := EnsureBlank(buf + since + ifcond + features);
    assert buf <= buf + since + ifcond + features;
    Ok(r)
  }

  /** What `preamble` has appended when one of its assertions fails: the
      parts before the failing one, and for a failing feature the lines of
      the special features before it. */
  function PreambleEmitted(depth: nat, ent: Entity): seq<Entry> {
    var since := SinceLines(depth, ent);
    if since.Err? then []
    else
      var ifcond := IfcondLines(depth, ent);
      if ifcond.Err? then since.value
      else since.value + ifcond.value + FeatureLines(depth, ent.features[..FirstUnlocated(ent.features)]).value
  }

  /** The lines emitted before a failure, part by part. */
  lemma PreambleEmittedParts(depth: nat, ent: Entity)
    ensures var s := SinceLines(depth, ent);
      var c := IfcondLines(depth, ent);
      && (s.Err? ==> PreambleEmitted(depth, ent) == [])
      && (s.Ok? && c.Err? ==> PreambleEmitted(depth, ent) == s.value)
      && (s.Ok? && c.Ok? ==>
            PreambleEmitted(depth, ent)
            == s.value + c.value + FeatureLines(depth, ent.features[..FirstUnlocated(ent.features)]).value)
  {
  }

  /** When nothing fails, the emitted lines are all of them, and `preamble`
      adds only the blank line after them. */
  lemma PreambleEmittedComplete(buf: seq<Entry>, depth: nat, ent: Entity)
    requires !PreambleFails(ent)
    ensures Preamble(buf, depth, ent) == Ok(EnsureBlank(buf + PreambleEmitted(depth, ent)))
  {
    var sl := SinceLines(depth, ent).value;
    var cl := IfcondLines(depth, ent).value;
    var fl := FeatureLines(depth, ent.features).value;
    assert PreambleEmitted(depth, ent) == sl + cl + fl by {
      assert ent.features[..FirstUnlocated(ent.features)] == ent.features;
    }
    assert Preamble(buf, depth, ent) == Ok(EnsureBlank(buf + sl + cl + fl)) by {
      PreambleParts(buf, depth, ent);
    }
    assert buf + (sl + cl + fl) == buf + sl + cl + fl;
  }

  /** `preamble` runs its three parts in order and stops at the first
      failure: the since line, the condition line, the feature lines. */
  lemma PreambleParts(buf: seq<Entry>, depth: nat, ent: Entity)
    ensures var s := SinceLines(depth, ent);
      var c := IfcondLines(depth, ent);
      var f := FeatureLines(depth, ent.features);
      && (s.Err? ==> Preamble(buf, depth, ent) == Err(s.error))
      && (s.Ok? && c.Err? ==> Preamble(buf, depth, ent) == Err(c.error))
      && (s.Ok? && c.Ok? && f.Err? ==> Preamble(buf, depth, ent) == Err(f.error))
      && (s.Ok? && c.Ok? && f.Ok? ==> Preamble(buf, depth, ent) == Ok(EnsureBlank(buf + s.value + c.value + f.value)))
  {
  }

  /** The ":since:" line of a since section whose text does not end in a
      newline is that text behind ":since: ", indented, credited to the
      section's line. */
  lemma SinceLine(depth: nat, ent: Entity, since: Section)
    requires ent.doc.Some? && ent.doc.value.since == Some(since) && since.kind == Since
    requires since.text == [] || since.text[|since.text| - 1] != '\n'
    ensures var e := Entry(Indentation(depth) + ":since: " + since.text, since.info.fname, since.info.line - 1);
      SinceLines(depth, ent) == Ok([e]) && !IsBlank(e.text)
  {
    var line := ":since: " + since.text;
    assert line[0] == ':';
    assert line[|line| - 1] != '\n' by {
      if since.text == [] {
        assert line == ":since: ";
      } else {
        assert line[|line| - 1] == since.text[|since.text| - 1];
      }
    }
    RawEntryVisible(depth, line, since.info.fname, since.info.line);
    assert Indentation(depth) + line == Indentation(depth) + ":since: " + since.text;
  }

  /** A present condition on an entity with a source position gives the
      line ":ifcond: " + its `docgen()` text, indented and credited to the
      entity's line. */
  lemma IfcondLine(depth: nat, ent: Entity)
    requires ent.ifcond.present && ent.info.Some?
    requires ent.ifcond.docgen == [] || ent.ifcond.docgen[|ent.ifcond.docgen| - 1] != '\n'
    ensures var e := Entry(Indentation(depth) + ":ifcond: " + ent.ifcond.docgen, ent.info.value.fname, ent.info.value.line - 1);
      IfcondLines(depth, ent) == Ok([e]) && !IsBlank(e.text)
  {
    var doc := ent.ifcond.docgen;
    var line := ":ifcond: " + doc;
    assert line[0] == ':';
    assert line[|line| - 1] != '\n' by {
      if doc == [] {
        assert line == ":ifcond: ";
      } else {
        assert line[|line| - 1] == doc[|doc| - 1];
      }
    }
    RawEntryVisible(depth, line, ent.info.value.fname, ent.info.value.line);
    assert Indentation(depth) + line == Indentation(depth) + ":ifcond: " + doc;
  }

  /** An entity documented "Since: <text>", without condition or features,
      gets its ":since:" line credited to the since section, then a blank
      line credited to the line after it. */
  lemma PreambleSinceOnly(buf: seq<Entry>, depth: nat, ent: Entity, since: Section)
    requires ent.doc.Some? && ent.doc.value.since == Some(since) && since.kind == Since
    requires !ent.ifcond.present && ent.features == []
    requires since.text == [] || since.text[|since.text| - 1] != '\n'
    ensures Preamble(buf, depth, ent)
         == Ok(buf + [Entry(Indentation(depth) + ":since: " + since.text, since.info.fname, since.info.line - 1),
                      Entry("", since.info.fname, since.info.line)])
  {
    var e := Entry(Indentation(depth) + ":since: " + since.text, since.info.fname, since.info.line - 1);
    SinceLine(depth, ent, since);
    assert Preamble(buf, depth, ent) == Ok(EnsureBlank(buf + [e])) by {
      assert IfcondLines(depth, ent) == Ok([]);
      assert FeatureLines(depth, ent.features) == Ok([]);
      assert buf + [e] + [] + [] == buf + [e];
    }
    assert Last(buf + [e]) == e;
    var blank := Entry("", since.info.fname, since.info.line);
    assert EnsureBlank(buf + [e]) == buf + [e] + [blank];
    assert buf + [e] + [blank] == buf + [e, blank];
  }

  /** `visit_module(path)`: the module directive, credited to line 1 of the
      module's file, then a blank line ensured. `stem` is `Path(path).stem`. */
  function Module(buf: seq<Entry>, depth: nat, path: string, stem: string): (r: seq<Entry>)
    ensures buf <= r && |r| == |buf| + 2
  {
    var directive := ".. qapi:module:: " + stem;
    assert !IsBlank(directive) by {
      assert !IsSpace(directive[0]);
    }
    RawEntryBlankIff(depth, directive, path, 1);
    EnsureBlank(buf + [RawEntry(depth, directive, path, 1)])
  }

  /** The module directive is zero-based line 0 of the module's file, and
      the blank line after it line 1. */
  lemma ModuleLayout(buf: seq<Entry>, depth: nat, path: string, stem: string)
    requires stem == [] || stem[|stem| - 1] != '\n'
    ensures Module(buf, depth, path, stem)
         == buf + [Entry(Indentation(depth) + ".. qapi:module:: " + stem, path, 0), Entry("", path, 1)]
  {
    var e := Entry(Indentation(depth) + (".. qapi:module:: " + stem), path, 0);
    DirectiveEntry(depth, path, stem);
    assert Last(buf + [e]) == e;
    assert Indentation(depth) + (".. qapi:module:: " + stem) == Indentation(depth) + ".. qapi:module:: " + stem;
  }

  /** The directive line is visible, so it is stored indented and unchanged. */
  lemma DirectiveEntry(depth: nat, path: string, stem: string)
    requires stem == [] || stem[|stem| - 1] != '\n'
    ensures var directive := ".. qapi:module:: " + stem;
      RawEntry(depth, directive, path, 1) == Entry(Indentation(depth) + directive, path, 0)
      && !IsBlank(Indentation(depth) + directive)
  {
    var directive := ".. qapi:module:: " + stem;
    assert directive[0] == '.';
    assert directive[|directive| - 1] != '\n' by {
      if stem == [] {
        assert directive == ".. qapi:module:: ";
      } else {
        assert directive[|directive| - 1] == stem[|stem| - 1];
      }
    }
    RawEntryVisible(depth, directive, path, 1);
  }
}
