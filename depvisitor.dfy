/** The dependency filter of `QAPISchemaGenDepVisitor.visit_module`: every
    schema module except the built-in pseudo-module is reported to Sphinx as
    a file the generated documentation depends on. `os.path.abspath` is a
    parameter, since the file system it consults is not part of the model. */
module Dependencies {
  import opened Results

  /** The name of the built-in pseudo-module, which has no file. */
  const Builtin: string := "./builtin"

  /** The absolute file path `visit_module(name)` reports, if any: the
      schema directory joined with the module name by "/", made absolute. */
  function DependencyOf(qapidir: string, name: string, abspath: string -> string): (r: Option<string>)
    ensures r.None? <==> name == Builtin
    ensures r.Some? ==> r.value == abspath(qapidir + "/" + name)
  {
    if name != Builtin then Some(abspath(qapidir + "/" + name)) else None
  }

  /** The file paths reported, in order, when the modules `names` are
      visited one after another. */
  function Noted(qapidir: string, names: seq<string>, abspath: string -> string): (r: seq<string>)
    ensures |r| <= |names|
    ensures forall d :: d in r <==>
      exists i :: 0 <= i < |names| && names[i] != Builtin && d == abspath(qapidir + "/" + names[i])
  {
    if names == [] then []
    else
      var init := names[..|names| - 1];
      var name := names[|names| - 1];
      var r := Noted(qapidir, init, abspath);
      assert forall i :: 0 <= i < |init| ==> init[i] == names[i];
      match DependencyOf(qapidir, name, abspath)
      case None => r
      case Some(d) => r + [d]
  }

  /** One more `visit_module` call extends the reports as VisitModule does,
      so a visitor that has visited `names` in order has reported Noted. */
  lemma NotedSnoc(qapidir: string, names: seq<string>, name: string, abspath: string -> string)
    ensures Noted(qapidir, names + [name], abspath)
         == Noted(qapidir, names, abspath) + (if name == Builtin then [] else [abspath(qapidir + "/" + name)])
  {
    assert (names + [name])[..|names|] == names;
  }

  /** A schema of modules A, B and the built-in one reports A's and B's
      files, in that order, once each, and nothing for the built-in one. */
  lemma TwoModulesAndBuiltin(qapidir: string, a: string, b: string, abspath: string -> string)
    requires a != Builtin && b != Builtin
    ensures Noted(qapidir, [a, b, Builtin], abspath) == [abspath(qapidir + "/" + a), abspath(qapidir + "/" + b)]
  {
    NotedSnoc(qapidir, [], a, abspath);
    assert [a] == [] + [a];
    NotedSnoc(qapidir, [a], b, abspath);
    assert [a, b] == [a] + [b];
    NotedSnoc(qapidir, [a, b], Builtin, abspath);
    assert [a, b, Builtin] == [a, b] + [Builtin];
  }

  /** Visiting only the built-in module reports nothing, however often. */
  lemma {:induction false} BuiltinNotesNothing(qapidir: string, names: seq<string>, abspath: string -> string)
    requires forall i :: 0 <= i < |names| ==> names[i] == Builtin
    ensures Noted(qapidir, names, abspath) == []
  {
    if names != [] {
      BuiltinNotesNothing(qapidir, names[..|names| - 1], abspath);
    }
  }

  /** Each module that is not the built-in one is reported exactly once, so
      there are as many reports as such modules. */
  lemma {:induction false} NotedCount(qapidir: string, names: seq<string>, abspath: string -> string)
    ensures |Noted(qapidir, names, abspath)| == |names| - BuiltinCount(names)
  {
    if names != [] {
      NotedCount(qapidir, names[..|names| - 1], abspath);
    }
  }

  /** How many of `names` are the built-in module. */
  function BuiltinCount(names: seq<string>): (n: nat)
    ensures n <= |names|
  {
    if names == [] then 0
    else BuiltinCount(names[..|names| - 1]) + (if names[|names| - 1] == Builtin then 1 else 0)
  }

  /** The visitor object: the schema directory it was created with, and the
      dependencies it has reported so far through `note_dependency`. */
  class DepVisitor {
    const qapidir: string
    var noted: seq<string>

    constructor(qapidir: string)
      ensures this.qapidir == qapidir && noted == []
    {
      this.qapidir := qapidir;
      noted := [];
    }

    /** `visit_module(name)`: one report for a real module, none for the
        built-in one. */
    method VisitModule(name: string, abspath: string -> string)
      modifies this
      ensures noted == old(noted) + (if name == Builtin then [] else [abspath(qapidir + "/" + name)])
    {
      if name != Builtin {
        var qapifile := qapidir + "/" + name;
        noted := noted + [abspath(qapifile)];
      }
    }
  }
}
