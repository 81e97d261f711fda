# The QAPI documentation transmogrifier, in Dafny

QEMU's Sphinx extension `qapidoc` turns the QAPI schema's documentation
comments into reStructuredText. Its core is the `Transmogrifier` object. The
object owns a line buffer (`_result`, a docutils `StringList`) in which every
line of generated reST carries the file and zero-based line number it is
credited to, and an indentation depth (`indent`). Its methods only ever
append to the buffer, or change the depth for the length of a `with` block.

This project models that object and the dependency filter of
`QAPISchemaGenDepVisitor.visit_module`:

- `text.dfy` (module `Text`): the Python string operations the code relies
  on. These are `str.strip()` used as a blank-line test, `rstrip("\n")`,
  `lstrip("\n")`, `splitlines(True)` with all of Python's line boundaries,
  `partition`, string repetition, and the `=+ ` heading pattern.
- `results.dfy`, `schema.dfy`: optional values, the two aborts the code can
  raise (a failed `assert` and an `IndexError`), and records holding only
  the fields of the QAPI documentation model that the code reads.
- `linebuffer.dfy` (module `LineBuffer`): the buffer as a value. It gives the
  entry `add_line_raw` appends, what `add_lines` appends, and what
  `ensure_blank_line` appends.
- `typeformat.dfy` (module `TypeFormat`): `format_type`.
- `sections.dfy` (module `Sections`): what `visit_paragraph`,
  `visit_errors`, `preamble` and `visit_module` append. Each is a function
  of the old buffer and the depth.
- `freeform.dfy` (module `Freeform`): `visit_freeform`, with the heading
  micro-syntax rewritten into reST section titles.
- `steps.dfy` (module `Blocks`): the body of a `with self.indented():`
  block, written as a small statement language whose meaning is the
  function `Exec`.
- `transmogrifier.dfy` (module `Transmogrify`): the class `Transmogrifier`.
  It has fields `result` and `indent`, and its methods update them in place.
  Each method is proved to leave `indent` as it found it, and to leave
  `result` equal to the corresponding specification function applied to the
  old state.
- `depvisitor.dfy` (module `Dependencies`): the `"./builtin"` filter, and the
  visitor's record of the dependencies it has reported.

Where the code can fail, the model returns the failure instead of
requiring it away. `format_type`, `preamble` and `visit_freeform` return a
`Result`, and the class methods return the raised failure as
`Option<Failure>`. The failures are:

- a free-form block whose section count is not one;
- a heading of seven or more levels (`markers[level]` past the end of the
  table);
- a since section of the wrong kind;
- a condition or a special feature without a source position;
- in `format_type`, a definition that is not a type (the assertion
  `isinstance(qapi_type, QAPISchemaType)`), and a type whose `doc_type()`
  is empty or None (the assertion `assert tmp`).

Two places where the code does something other than what its own
comments and names suggest; the model follows the code in both:

- The comment at docs/sphinx/qapidoc.py:251 reads "Eat blank line(s) and
  advance info". The next lines assign `text = trimmed` and only then
  compute `info.next_line(len(text) - len(trimmed) + 1)`, so the difference
  is always zero and the body's position always advances by exactly one
  line, however many blank lines were eaten (`Freeform.BodyAdvance`).
- The test `overline = level <= 2` at docs/sphinx/qapidoc.py:240 reads as
  if levels 1 and 2 got an overline. But `level = len(leader) + 1` at :236
  and the leader holds at least one '=', so level 1 never occurs: only a
  single '=' (level 2, marker '*') gets an overline. "== T" is level 3 and
  uses '=' as an underline only.

## Model

| member | source | states |
|---|---|---|
| Text.BlankIffStripEmpty | docs/sphinx/qapidoc.py:103 | the blank-line test `not line.strip()` holds exactly when every character is Python whitespace |
| Text.LStripSpace | docs/sphinx/qapidoc.py:103 | `lstrip()` drops exactly a maximal whitespace prefix and keeps a suffix of the input |
| Text.RStripSpace | docs/sphinx/qapidoc.py:103 | `rstrip()` drops exactly a maximal whitespace suffix and keeps a prefix of the input |
| Text.RStripNewlines | docs/sphinx/qapidoc.py:106 | `rstrip("\n")` keeps a prefix, drops only '\n' characters, and the result does not end in '\n' |
| Text.LStripNewlines | docs/sphinx/qapidoc.py:252 | `lstrip("\n")` keeps a suffix, drops only '\n' characters, and the result does not start with '\n' |
| Text.Repeat | docs/sphinx/qapidoc.py:87 | `s * n` has n times the length of `s` |
| Text.RepeatAll | docs/sphinx/qapidoc.py:246 | `c * n` for a single character c is n copies of c |
| Text.RepeatSpace | docs/sphinx/qapidoc.py:87 | repeating whitespace gives whitespace, so the indentation is blank |
| Text.IndexOf | docs/sphinx/qapidoc.py:233-234 | the first occurrence of a character, or the length when there is none |
| Text.PartitionSplits | docs/sphinx/qapidoc.py:233-234 | `partition(sep)`: the head has no separator, and head + sep + tail is the input; without a separator the input comes back whole with two empty parts |
| Text.CountLeading | docs/sphinx/qapidoc.py:230 | the length of the maximal run of a character at the start |
| Text.CountLeadingAt | docs/sphinx/qapidoc.py:230 | a run of exactly k copies followed by another character is counted as k |
| Text.MatchesHeadingIff | docs/sphinx/qapidoc.py:230 | the heading test agrees with `re.match(r"=+ ")`: some non-empty run of '=' at the start followed directly by a space |
| Text.LineLength | docs/sphinx/qapidoc.py:122 | the first line of a text: no boundary before its last character except the '\r' of a final "\r\n", and a line boundary at its end unless it is the whole text |
| Text.LineLengthKeepsCRLF | docs/sphinx/qapidoc.py:122 | a first line ending in '\r' is never followed by '\n', so "\r\n" is one boundary |
| Text.FirstBreak | docs/sphinx/qapidoc.py:122 | the index of the first line boundary |
| Text.SplitLines | docs/sphinx/qapidoc.py:122 | `splitlines(True)`: only the empty text has no lines |
| Text.SplitLinesConcat | docs/sphinx/qapidoc.py:122 | the lines concatenate back to the text |
| Text.SplitLinesNonEmpty | docs/sphinx/qapidoc.py:122 | no line is empty |
| Text.SplitLinesBreaks | docs/sphinx/qapidoc.py:122 | every line but the last ends in a line boundary |
| Text.SplitLinesOneLine | docs/sphinx/qapidoc.py:122 | no line holds a boundary before its end, except the '\r' of a final "\r\n" |
| Text.SplitLinesKeepsCRLF | docs/sphinx/qapidoc.py:122 | no "\r\n" is cut between two lines |
| Text.SplitLinesCons | docs/sphinx/qapidoc.py:122 | a first line without boundaries followed by "\n" is split off as the first line |
| Text.SplitLinesSingle | docs/sphinx/qapidoc.py:122 | a non-empty text without line boundaries is one line |
| LineBuffer.Indentation | docs/sphinx/qapidoc.py:86-87 | `get_indent()` is 3 × depth characters, all whitespace |
| LineBuffer.RawEntry | docs/sphinx/qapidoc.py:97-109 | `add_line_raw` credits the entry to the given file and the one-based line number minus one |
| LineBuffer.RawEntryBlankIff | docs/sphinx/qapidoc.py:103-109 | the stored text is blank exactly when the given line is, and a blank line is stored as "" without indentation |
| LineBuffer.StripNewlinesKeepsText | docs/sphinx/qapidoc.py:103-106 | removing trailing newlines from a non-blank line leaves it non-blank |
| LineBuffer.RawEntryNonBlank | docs/sphinx/qapidoc.py:103-107 | a non-blank line is stored as the indentation followed by the line minus a run of trailing '\n', and the stored text never ends in '\n' |
| LineBuffer.RawEntryVisible | docs/sphinx/qapidoc.py:103-107 | a line starting with a visible character and not ending in '\n' is stored as indentation + line |
| LineBuffer.RawEntryVisibleNewline | docs/sphinx/qapidoc.py:103-107 | the same line followed by one '\n' is stored identically |
| LineBuffer.EnsureBlank | docs/sphinx/qapidoc.py:126-137 | `ensure_blank_line` keeps every earlier entry and adds at most one. On an empty buffer it adds nothing, and after a blank line it adds nothing. Otherwise it adds a "" entry in the last entry's file, credited to the last stored line + 1. Afterwards a non-empty buffer ends blank |
| LineBuffer.EnsureBlankIdempotent | docs/sphinx/qapidoc.py:126-137 | ensuring a blank line twice gives the same buffer as ensuring it once |
| LineBuffer.EntriesOf | docs/sphinx/qapidoc.py:123-124 | the loop over the lines appends one entry per line, the i-th being `add_line_raw` of line i at line `first + i` |
| LineBuffer.EntriesOfCons | docs/sphinx/qapidoc.py:123-124 | the first loop iteration appends the first line's entry, and the rest is the loop over the remaining lines one line further on |
| LineBuffer.EntriesOfSnoc | docs/sphinx/qapidoc.py:123-124 | one more loop iteration appends one more entry |
| LineBuffer.LinesEntries | docs/sphinx/qapidoc.py:117-124 | `add_lines` appends as many entries as `splitlines(True)` gives. The i-th entry is credited to `info.fname` at stored line `info.line + i - 1`. Empty content appends nothing, and only empty content does |
| LineBuffer.LinesEntriesCons | docs/sphinx/qapidoc.py:117-124 | `add_lines` of "head\n" + rest is the head's entry followed by `add_lines` of rest one line further on |
| TypeFormat.FormatQapiType | docs/sphinx/qapidoc.py:154-159 | an array renders as "[" + element + "]". Any other type renders as its `doc_type()`, and fails the assertion exactly when that is empty or None. A success is never empty |
| TypeFormat.FormatType | docs/sphinx/qapidoc.py:139-161 | the result is None exactly for enum members and features. A definition that is not a type fails. A rendered type is never empty |
| TypeFormat.OptionalAddsSuffix | docs/sphinx/qapidoc.py:145-161 | an optional member renders as the same member made required followed by "?", and fails exactly when that one does |
| TypeFormat.RequiredMemberIsItsType | docs/sphinx/qapidoc.py:145-158 | a required member renders exactly as its type does on its own, and a type renders as FormatQapiType says: "[elem]" for an array, its `doc_type()` otherwise, failing in exactly the same cases with the same failure |
| TypeFormat.ArrayOfFoo | docs/sphinx/qapidoc.py:139-161 | a required array of Foo is "[Foo]", an optional one "[Foo]?", and enum members and features give None |
| Sections.Paragraph | docs/sphinx/qapidoc.py:165-172 | empty text leaves the buffer unchanged. Otherwise the buffer is only extended, grows, and then ends in a blank line |
| Sections.ParagraphFramed | docs/sphinx/qapidoc.py:165-172 | a non-empty paragraph is a blank line ensured, then the text's lines, then at most one more entry, which is blank |
| Sections.Errors | docs/sphinx/qapidoc.py:174-178 | `visit_errors` only appends, and appends at least one entry |
| Sections.ErrorMarker | docs/sphinx/qapidoc.py:178 | the ":error:" marker is one visible line without a line boundary |
| Sections.ErrorsLayout | docs/sphinx/qapidoc.py:174-178 | the ":error:" marker is credited to the section's first line. The text's lines follow unindented beyond the current depth, each one line further on |
| Sections.ErrorLines | docs/sphinx/qapidoc.py:178 | the lines of ":error:\n" + text are the marker's entry, then the text's lines one line further on |
| Sections.MarkedLines | docs/sphinx/qapidoc.py:178 | a visible one-line marker, a newline and a text give the marker's entry, then the text's lines one line further on |
| Sections.SinceLines | docs/sphinx/qapidoc.py:184-187 | no line when the entity has no documentation or no since section; the kind assertion fails exactly when the since section is not of kind SINCE; at most one ":since:" line |
| Sections.IfcondLines | docs/sphinx/qapidoc.py:189-193 | no line without a condition; the `ent.info` assertion fails exactly when a condition is present and the entity has no position; at most one line |
| Sections.IfcondLine | docs/sphinx/qapidoc.py:189-193 | a present condition on a located entity gives ":ifcond: " + its `docgen()` text, indented, credited to the entity's line |
| Sections.Specials | docs/sphinx/qapidoc.py:200-201 | the special features are at most as many as the features |
| Sections.SpecialsMembers | docs/sphinx/qapidoc.py:200-201 | a feature is among them exactly when it is a special one |
| Sections.SpecialsAppend | docs/sphinx/qapidoc.py:200-201 | the special features of two lists joined are those of the first, then those of the second |
| Sections.SpecialsOrder | docs/sphinx/qapidoc.py:200-201 | each feature keeps its place: a special one appears once, between the special features before and after it; any other is dropped |
| Sections.FirstUnlocated | docs/sphinx/qapidoc.py:200-205 | the position of the first special feature without a source position: every special feature before it is located, and it is the whole length exactly when all are |
| Sections.FirstUnlocatedAt | docs/sphinx/qapidoc.py:200-205 | an unlocated special feature after a located prefix is the first unlocated one |
| Sections.FeatureLines | docs/sphinx/qapidoc.py:200-206 | the feature loop succeeds exactly when every special feature has a position, and otherwise fails the `feat.info` assertion |
| Sections.FeatureLinesAreSpecials | docs/sphinx/qapidoc.py:200-206 | the feature lines are one ":name:" line per special feature, in declaration order; non-special features emit nothing |
| Sections.Preamble | docs/sphinx/qapidoc.py:180-208 | `preamble` fails exactly when one of its three assertions fails. On success it only appends, and the buffer ends blank |
| Sections.PreambleParts | docs/sphinx/qapidoc.py:180-208 | unfolds `preamble` part by part: the first of the since, condition and feature parts to fail decides the failure; when none fails the result is the three parts appended, then a blank line ensured |
| Sections.PreambleEmittedParts | docs/sphinx/qapidoc.py:180-206 | unfolds PreambleEmitted case by case: before a failed assertion `preamble` has emitted nothing (since), the since line (condition), or the since and condition lines and the lines of the special features before the unlocated one (features) |
| Sections.PreambleEmittedComplete | docs/sphinx/qapidoc.py:180-208 | when nothing fails the emitted lines are all of them, followed by a blank line ensured |
| Sections.SinceLine | docs/sphinx/qapidoc.py:184-187 | a since section whose text does not end in '\n' gives the line ":since: " + text, indented, credited to that section's line |
| Sections.PreambleSinceOnly | docs/sphinx/qapidoc.py:180-208 | an entity with only a since section gets its ":since:" line and then one blank line credited to the line after it |
| Sections.Module | docs/sphinx/qapidoc.py:212-216 | `visit_module` appends exactly two entries |
| Sections.ModuleLayout | docs/sphinx/qapidoc.py:212-216 | the module directive is stored at line 0 of the module's file and the blank line after it at line 1 |
| Sections.DirectiveEntry | docs/sphinx/qapidoc.py:215 | the module directive is a visible line, stored indented and unchanged |
| Freeform.ParseHeading | docs/sphinx/qapidoc.py:230-236 | a heading is found exactly when the text matches `=+ `. Its level is the number of leading '=' plus one, and its title holds no newline |
| Freeform.LeaderIsRun | docs/sphinx/qapidoc.py:233-236 | the leader cut off by the two partitions is exactly the run of '=' |
| Freeform.HeadingLine | docs/sphinx/qapidoc.py:230-234 | a line of k '=' and a space before a title matches the pattern with k '=' |
| Freeform.ParseHeadingOfParts | docs/sphinx/qapidoc.py:230-236 | a heading line built from k '=', a title and a rest parses back into level k + 1, that title and that rest |
| Freeform.ParseHeadingOfLine | docs/sphinx/qapidoc.py:230-236 | a heading line without a newline parses into level k + 1, its title and an empty rest |
| Freeform.LineParts | docs/sphinx/qapidoc.py:234 | the first line splits at its first space into the '=' run and the title |
| Freeform.ParseHeadingParts | docs/sphinx/qapidoc.py:230-236 | conversely, a parsed text is the '=' run, a space, the title and (if present) "\n" + rest; the level is at least 2 |
| Freeform.FirstLineParts | docs/sphinx/qapidoc.py:233-234 | the first line of a heading text is the '=' run, a space and the parsed title |
| Freeform.HeadingEntries | docs/sphinx/qapidoc.py:240-248 | three lines for levels up to 2 and two otherwise, all credited to the block's first line |
| Freeform.BodyAdvance | docs/sphinx/qapidoc.py:251-254 | as written, the body's position always advances by exactly one line |
| Freeform.Headed | docs/sphinx/qapidoc.py:243-257 | rendering a heading block only appends, and ends with a blank line |
| Freeform.Freeform | docs/sphinx/qapidoc.py:218-257 | `visit_freeform` fails exactly when the block has a section count other than one, or has a heading of level 7 or more. On success it only appends, and the buffer ends blank |
| Freeform.MarkersVisible | docs/sphinx/qapidoc.py:239-241 | every marker a heading can select is a visible character |
| Freeform.BarEntry | docs/sphinx/qapidoc.py:246-248 | an adornment line is stored as indentation + adornment and is not blank |
| Freeform.Adorned | docs/sphinx/qapidoc.py:240-248 | the adorned title has an overline only for a single '=' |
| Freeform.TitleBlock | docs/sphinx/qapidoc.py:240-249 | the adorned title followed by one blank line |
| Freeform.FreeformHeadingLayout | docs/sphinx/qapidoc.py:218-257 | a block "=…= title\nbody" with k ≤ 5 '=' and a visible title renders as follows: a blank line ensured, then an overline only if k = 1, then the title and an underline. The marker is that of level k + 1, the adornments are as long as the title, and all three are credited to the block's first line. Then comes exactly one blank line, then the body with its leading newlines eaten, from one line on, then a blank line ensured |
| Freeform.TitledLayout | docs/sphinx/qapidoc.py:243-249 | the heading lines with a blank line ensured before and after are the title block |
| Freeform.AfterUnderline | docs/sphinx/qapidoc.py:248-249 | the blank line after the underline is always added, credited to the next line |
| Freeform.FreeformIsHeaded | docs/sphinx/qapidoc.py:230-257 | unfolds the heading case: a block with a heading of level 6 or less is rendered as a heading block |
| Freeform.FreeformOfHeading | docs/sphinx/qapidoc.py:230-257 | such a block is the heading lines framed by blank lines, then the trimmed body one line on, then a blank line |
| Freeform.HeadingLines | docs/sphinx/qapidoc.py:245-248 | for a visible title the heading's lines are exactly the adorned title: each stored indented and otherwise unchanged |
| Freeform.FreeformPlain | docs/sphinx/qapidoc.py:256-257 | without a heading, on any buffer, the block's lines are appended directly after the last entry, with no blank line before them, and a blank line is ensured after |
| Freeform.FreeformPlainIsParagraph | docs/sphinx/qapidoc.py:256-257 | without a heading, and after a blank line or on an empty buffer, a free-form block renders exactly as a paragraph |
| Blocks.Exec | docs/sphinx/qapidoc.py:89-95 | running a `with` body only appends |
| Blocks.ExecStep | docs/sphinx/qapidoc.py:89-95 | running one statement only appends; a nested block runs one level deeper |
| Blocks.ExecAppend | docs/sphinx/qapidoc.py:89-95 | running two bodies in sequence is running the first, then, unless it raised, the second |
| Blocks.RaiseStops | docs/sphinx/qapidoc.py:92-95 | after an exception nothing more of the body runs |
| Blocks.IndentationSucc | docs/sphinx/qapidoc.py:86-91 | one more level of indentation is three more spaces |
| Blocks.NestedLine | docs/sphinx/qapidoc.py:86-95 | a visible line inside an indented block is indented three spaces further than outside it |
| Transmogrify.Transmogrifier.constructor | docs/sphinx/qapidoc.py:80-82 | a new transmogrifier has an empty buffer at depth 0 |
| Transmogrify.Transmogrifier.GetIndent | docs/sphinx/qapidoc.py:86-87 | `get_indent()` is 3 × `indent` whitespace characters |
| Transmogrify.Transmogrifier.AddLineRaw | docs/sphinx/qapidoc.py:97-109 | appends exactly the entry RawEntry describes, changing nothing else |
| Transmogrify.Transmogrifier.AddLine | docs/sphinx/qapidoc.py:111-115 | `add_line_raw` at the info's file and line |
| Transmogrify.Transmogrifier.AddLines | docs/sphinx/qapidoc.py:117-124 | appends exactly LinesEntries |
| Transmogrify.Transmogrifier.AddEach | docs/sphinx/qapidoc.py:123-124 | the loop appends exactly EntriesOf, one entry per iteration |
| Transmogrify.Transmogrifier.EnsureBlankLine | docs/sphinx/qapidoc.py:126-137 | the new buffer is EnsureBlank of the old one |
| Transmogrify.Transmogrifier.VisitParagraph | docs/sphinx/qapidoc.py:165-172 | the new buffer is Paragraph of the old one |
| Transmogrify.Transmogrifier.VisitErrors | docs/sphinx/qapidoc.py:174-178 | the new buffer is Errors of the old one |
| Transmogrify.Transmogrifier.Preamble | docs/sphinx/qapidoc.py:180-208 | raises exactly when one of the assertions fails, with the same failure as Sections.Preamble, having appended exactly PreambleEmitted. On success the buffer is Sections.Preamble of the old one |
| Transmogrify.Transmogrifier.AddFeatures | docs/sphinx/qapidoc.py:200-206 | the feature loop raises exactly when a special feature has no position, with FeatureLines' failure, having appended the lines of the special features before it; otherwise it appends exactly FeatureLines |
| Transmogrify.Transmogrifier.VisitModule | docs/sphinx/qapidoc.py:212-216 | the new buffer is Module of the old one |
| Transmogrify.Transmogrifier.VisitFreeform | docs/sphinx/qapidoc.py:218-257 | raises exactly when Freeform fails, with the same failure, and then before appending anything. On success the buffer is what Freeform gives |
| Transmogrify.Transmogrifier.AddHeading | docs/sphinx/qapidoc.py:240-249 | appends the heading lines framed by two ensured blank lines |
| Transmogrify.Transmogrifier.Execute | docs/sphinx/qapidoc.py:89-95 | running a body changes the buffer as Exec says and raises as Exec says, and leaves the depth as it was |
| Transmogrify.Transmogrifier.ExecuteStep | docs/sphinx/qapidoc.py:89-95 | the same for one statement |
| Transmogrify.Transmogrifier.Indented | docs/sphinx/qapidoc.py:89-95 | `with self.indented()` runs the body one level deeper and restores `indent` on every exit, including an exception |
| Dependencies.DependencyOf | docs/sphinx/qapidoc.py:272-276 | no dependency exactly for "./builtin"; otherwise `abspath(qapidir + "/" + name)` |
| Dependencies.Noted | docs/sphinx/qapidoc.py:272-276 | after visiting a sequence of modules, a path has been reported exactly when it is `abspath` of the directory joined with some module name other than "./builtin" |
| Dependencies.NotedSnoc | docs/sphinx/qapidoc.py:272-276 | one more `visit_module` call appends to the reports exactly what DepVisitor.VisitModule appends |
| Dependencies.TwoModulesAndBuiltin | docs/sphinx/qapidoc.py:272-276 | modules A, B and "./builtin" report exactly A's and B's paths, in order, once each |
| Dependencies.BuiltinNotesNothing | docs/sphinx/qapidoc.py:273 | visiting only the built-in module reports nothing |
| Dependencies.NotedCount | docs/sphinx/qapidoc.py:272-276 | there is one report per visited module that is not "./builtin" |
| Dependencies.BuiltinCount | docs/sphinx/qapidoc.py:273 | the number of visits of the built-in module |
| Dependencies.DepVisitor.constructor | docs/sphinx/qapidoc.py:268-270 | a new visitor keeps its schema directory and has reported nothing |
| Dependencies.DepVisitor.VisitModule | docs/sphinx/qapidoc.py:272-276 | reports `abspath(qapidir + "/" + name)` unless the name is "./builtin" |

## Left out

- The Sphinx and docutils plumbing (`NestedDirective`, `QAPIDocDirective`, `QMPExample`, `setup`, docs/sphinx/qapidoc.py:279-456) is host-pipeline glue into libraries outside this model.
- The QAPI parser and schema objects are inputs. Their `doc_type()`, `ifcond.docgen()` and `is_special()` results are fields of the input records.
- `Path(path).stem` in `visit_module` is an input (`stem`), since it is a path library call.
- `os.path.abspath` is a function parameter of `DependencyOf` and `VisitModule`, since it depends on the file system's current directory.
- `note_dependency` is modelled as appending to the visitor's `noted` list. The call into the base class's `visit_module`, which does nothing here, is left out.
- The `QAPIError` to `ExtensionError` conversion is exception plumbing outside the core.
- `hw/riscv/ricky_star.c` and `include/hw/riscv/ricky_star.h` are not part of this model: they are board definition code unrelated to the transmogrifier.
- `StringList` stores a line number as an offset in a separate items list, and `add_line_raw` takes any number of line numbers (`*lineno`). The model stores exactly one line number per entry, which is how every caller uses it.
- The legacy `QAPISchemaGenRSTVisitor` renderer is a parallel code path and is not modelled.
