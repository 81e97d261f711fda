/** The body of a `with self.indented():` block, as a small statement
    language over the line buffer: the buffer primitives, nested indented
    blocks, and raising an exception. `Exec` is what running such a body
    appends at a given depth, and whether it raised. */
module Blocks {
  import opened Text
  import opened Results
  import opened Schema
  import opened LineBuffer

  datatype Step =
    | Line(line: string, source: string, lineno: int)   // add_line_raw
    | Lines(content: string, info: SourceInfo)          // add_lines
    | BlankLine                                         // ensure_blank_line
    | Nested(body: seq<Step>)                           // with self.indented(): body
    | Raise(error: Failure)                             // an exception escaping the body

  /** The buffer after a body has run, and the exception it raised, if any. */
  datatype Outcome = Outcome(entries: seq<Entry>, raised: Option<Failure>)

  /** Running `steps` in order at depth `depth`; the first exception ends the
      body. Running only ever appends. */
  function Exec(buf: seq<Entry>, depth: nat, steps: seq<Step>): (o: Outcome)
    decreases steps
    ensures buf <= o.entries
  {
    if steps == [] then Outcome(buf, None)
    else
      var first := ExecStep(buf, depth, steps[0]);
      if first.raised.Some? then first else Exec(first.entries, depth, steps[1..])
  }

  /** Running one step at depth `depth`: a nested block runs one level deeper,
      and the depth it leaves behind is the caller's again. */
  function ExecStep(buf: seq<Entry>, depth: nat, step: Step): (o: Outcome)
    decreases step
    ensures buf <= o.entries
  {
    match step
    case Line(line, source, lineno) => Outcome(buf + [RawEntry(depth, line, source, lineno)], None)
    case Lines(content, info) => Outcome(buf + LinesEntries(depth, content, info), None)
    case BlankLine => Outcome(EnsureBlank(buf), None)
    case Nested(body) => Exec(buf, depth + 1, body)
    case Raise(error) => Outcome(buf, Some(error))
  }

  /** Running two bodies one after the other is running the first, then,
      unless it raised, the second on what the first left. */
  lemma {:induction false} ExecAppend(buf: seq<Entry>, depth: nat, s1: seq<Step>, s2: seq<Step>)
    decreases s1
    ensures var o := Exec(buf, depth, s1);
      Exec(buf, depth, s1 + s2) == if o.raised.Some? then o else Exec(o.entries, depth, s2)
  {
    if s1 == [] {
      assert s1 + s2 == s2;
    } else {
      var first := ExecStep(buf, depth, s1[0]);
      assert (s1 + s2)[0] == s1[0];
      assert (s1 + s2)[1..] == s1[1..] + s2;
      if first.raised.None? {
        ExecAppend(first.entries, depth, s1[1..], s2);
      }
    }
  }

  /** Whatever a body raises, the steps after it do not run. */
  lemma RaiseStops(buf: seq<Entry>, depth: nat, body: seq<Step>, rest: seq<Step>)
    requires Exec(buf, depth, body).raised.Some?
    ensures Exec(buf, depth, body + rest) == Exec(buf, depth, body)
  {
    ExecAppend(buf, depth, body, rest);
  }

  /** One more level of indentation is three more spaces. */
  lemma {:induction false} IndentationSucc(depth: nat)
    ensures Indentation(depth + 1) == Indentation(depth) + "   "
  {
    if depth > 0 {
      IndentationSucc(depth - 1);
      assert Indentation(depth + 1) == "   " + Indentation(depth);
      assert Indentation(depth) == "   " + Indentation(depth - 1);
    }
  }

  /** A visible line added inside an indented block gets the enclosing
      block's indentation plus three spaces, and is its only entry. */
  lemma NestedLine(buf: seq<Entry>, depth: nat, line: string, source: string, lineno: int)
    requires line != [] && !IsSpace(line[0]) && line[|line| - 1] != '\n'
    ensures ExecStep(buf, depth, Nested([Line(line, source, lineno)]))
         == Outcome(buf + [Entry(Indentation(depth) + "   " + line, source, lineno - 1)], None)
  {
    RawEntryVisible(depth + 1, line, source, lineno);
    IndentationSucc(depth);
    var o := ExecStep(buf, depth + 1, Line(line, source, lineno));
    assert Exec(buf, depth + 1, [Line(line, source, lineno)]) == Exec(o.entries, depth + 1, []);
  }
}
