/** Module texts statement by statement: what the undefined-name check takes as defined
    (evaluator/contract.py) and what the merge carries over (the extractors of cycle/materialize.py). */
module Toplevel {
  import opened Python
  import opened Materialize

  /** binds maps each local name to what it imports; star is `from x import *`. */
  datatype Import = Import(binds: map<string, string>, star: bool)

  /** targets are the plain-name targets of an assignment; stores are the names stored or defined anywhere
      inside a try, if, with or other compound statement. */
  datatype Kind =
    | ImportLine(line: Import)
    | ClassDef(name: string)
    | FunctionDef(name: string)
    | AsyncDef(name: string)
    | Assign(targets: seq<string>)
    | AnnAssign(target: Option<string>)
    | Compound(stores: set<string>)

  /** inner holds the imports anywhere inside the statement. */
  datatype Statement = Statement(kind: Kind, inner: seq<Import>, text: string)

  /** top excludes `class Patch` itself, whose members follow; memberImports holds the imports inside them. */
  datatype Module = Module(
    top: seq<Statement>,
    members: map<string, Method>,
    memberImports: seq<Import>,
    overrides: set<string>,
    frozen: seq<map<string, int>>)

  const EMPTY_MODULE := Module([], map[], [], {}, [])

  const PATCH := "Patch"

  // ---- the names of a module

  function BoundBy(k: Kind): set<string> {
    match k
    case ImportLine(_) => {}
    case ClassDef(name) => {name}
    case FunctionDef(name) => {name}
    case AsyncDef(name) => {name}
    case Assign(targets) => set t | t in targets
    case AnnAssign(target) => if target.Some? then {target.value} else {}
    case Compound(stores) => stores
  }

  function ImportsOf(s: Statement): seq<Import> {
    (if s.kind.ImportLine? then [s.kind.line] else []) + s.inner
  }

  function TopImports(top: seq<Statement>): seq<Import> {
    if top == [] then [] else TopImports(top[..|top| - 1]) + ImportsOf(top[|top| - 1])
  }

  /** The imports anywhere in the text. */
  function AllImports(m: Module): seq<Import> {
    TopImports(m.top) + m.memberImports
  }

  function TopNames(top: seq<Statement>): set<string> {
    set s, n | s in top && n in BoundBy(s.kind) :: n
  }

  function ImportNames(lines: seq<Import>): set<string> {
    set i, n | i in lines && n in i.binds.Keys :: n
  }

  predicate HasStar(m: Module) {
    exists i :: i in AllImports(m) && i.star
  }

  /** _module_level_names */
  function ModuleNames(m: Module): Option<set<string>> {
    if HasStar(m) then None else Some({PATCH} + TopNames(m.top) + ImportNames(AllImports(m)))
  }

  /** undefined_names_in_patch: with a star import nothing is checked. */
  function Broken(builtins: set<string>, m: Module): set<string> {
    match ModuleNames(m)
    case None => {}
    case Some(names) => set n | n in m.members.Keys && !(Sought(n, m.members[n]) <= names + builtins)
  }

  predicate Passes(builtins: set<string>, m: Module) {
    Broken(builtins, m) == {}
  }

  // ---- the extractors

  /** A dict: in the order of first insertion, with the last value. */
  function Put(d: seq<(string, Statement)>, n: string, s: Statement): seq<(string, Statement)> {
    if d == [] then [(n, s)]
    else if d[0].0 == n then [(n, s)] + d[1..]
    else [d[0]] + Put(d[1..], n, s)
  }

  function PutAll(d: seq<(string, Statement)>, names: seq<string>, s: Statement): seq<(string, Statement)> {
    if names == [] then d else Put(PutAll(d, names[..|names| - 1], s), names[|names| - 1], s)
  }

  function Update(d: seq<(string, Statement)>, e: seq<(string, Statement)>): seq<(string, Statement)> {
    if e == [] then d else Put(Update(d, e[..|e| - 1]), e[|e| - 1].0, e[|e| - 1].1)
  }

  function KeysOf(d: seq<(string, Statement)>): set<string> {
    set e | e in d :: e.0
  }

  function AsMap(d: seq<(string, Statement)>): map<string, Statement> {
    if d == [] then map[] else AsMap(d[..|d| - 1])[d[|d| - 1].0 := d[|d| - 1].1]
  }

  /** The names under which the helper extractor files a statement. */
  function HelperNames(k: Kind): seq<string> {
    match k
    case ClassDef(name) => [name]
    case FunctionDef(name) => [name]
    case Assign(targets) => targets
    case AnnAssign(target) => if target.Some? then [target.value] else []
    case _ => []
  }

  /** _extract_toplevel_helpers */
  function Helpers(top: seq<Statement>): seq<(string, Statement)> {
    if top == [] then []
    else PutAll(Helpers(top[..|top| - 1]), HelperNames(top[|top| - 1].kind), top[|top| - 1])
  }

  function Compounds(top: seq<Statement>): seq<Statement> {
    if top == [] then []
    else Compounds(top[..|top| - 1]) + if top[|top| - 1].kind.Compound? then [top[|top| - 1]] else []
  }

  /** _extract_other_toplevel_statements */
  function Others(top: seq<Statement>): seq<Statement> {
    Dedup(Compounds(top))
  }

  // ---- the merge of two texts

  function Bindings(lines: seq<Import>): map<string, string> {
    if lines == [] then map[] else Bindings(lines[..|lines| - 1]) + lines[|lines| - 1].binds
  }

  /** What the rest of the merge sees of a text. */
  function AsSource(m: Module): Source {
    var helpers := AsMap(Helpers(m.top));
    Source(map n | n in helpers.Keys :: helpers[n].text, Bindings(AllImports(m)), m.members, m.overrides, m.frozen)
  }

  /** The import lines of the combining helpers, sorted. */
  function ExtraLines(imports: map<string, string>): seq<Import> {
    (if UNION_COLUMNS in imports then [Import(map[UNION_COLUMNS := imports[UNION_COLUMNS]], false)] else []) +
    (if UNION_CANDIDATES in imports then [Import(map[UNION_CANDIDATES := imports[UNION_CANDIDATES]], false)] else [])
  }

  function Lines(lines: seq<Import>): seq<Statement> {
    seq(|lines|, i requires 0 <= i < |lines| => Statement(ImportLine(lines[i]), [], ""))
  }

  function StatementsOf(d: seq<(string, Statement)>): seq<Statement> {
    Dedup(seq(|d|, i requires 0 <= i < |d| => d[i].1))
  }

  /** The statements the merge carries over: compound ones, then helpers, each text once. */
  function Carried(base: Module, patch: Module): seq<Statement> {
    Dedup(Others(base.top) + Others(patch.top)) + StatementsOf(Update(Helpers(base.top), Helpers(patch.top)))
  }

  /** The import lines of both texts and the extra ones, each once. */
  function LinesWith(base: Module, patch: Module, extra: seq<Import>): seq<Import> {
    Dedup(Dedup(AllImports(base)) + Dedup(AllImports(patch)) + extra)
  }

  function Extra(base: Module, patch: Module): seq<Import> {
    ExtraLines(ComposeAll(AsSource(base), AsSource(patch)).imports)
  }

  /** The merged text: import lines, other statements, helpers, and the class. */
  function MergedText(base: Module, patch: Module): Module {
    var b, p := AsSource(base), AsSource(patch);
    Module(Lines(LinesWith(base, patch, Extra(base, patch))) + Carried(base, patch),
           Frozen(CoreSource(b, p), ExtractFrozen(p)).members,
           base.memberImports + patch.memberImports, {}, [])
  }

  datatype MergedModule = Fine(text: Module) | Collides(names: set<string>) | Breaks(members: set<string>)

  /** materialize_best_pipeline on texts. */
  function MergeTexts(builtins: set<string>, base: Module, patch: Module): MergedModule {
    var collisions := RealCollisions(AsMap(Helpers(base.top)), AsMap(Helpers(patch.top)));
    if collisions != {} then Collides(collisions)
    else
      var out := MergedText(base, patch);
      if Passes(builtins, out) then Fine(out) else Breaks(Broken(builtins, out))
  }

  function ReplayTexts(builtins: set<string>, codes: seq<Module>): MergedModule {
    if codes == [] then Fine(EMPTY_MODULE)
    else
      match ReplayTexts(builtins, codes[..|codes| - 1])
      case Fine(best) => MergeTexts(builtins, best, codes[|codes| - 1])
      case e => e
  }

  // ---- the procedures

  /** The first pass of _module_level_names, over the statements. */
  method CollectBound(top: seq<Statement>) returns (names: set<string>)
    ensures names == TopNames(top)
  {
    names := {};
    for i := 0 to |top|
      invariant names == TopNames(top[..i])
    {
      assert top[..i + 1] == top[..i] + [top[i]];
      names := names + BoundBy(top[i].kind);
    }
    assert top[..|top|] == top;
  }

  /** The second pass, over every import: it gives up at a star. */
  method CollectImported(lines: seq<Import>) returns (names: Option<set<string>>)
    ensures names.None? <==> exists i :: i in lines && i.star
    ensures names.Some? ==> names.value == ImportNames(lines)
  {
    var found := {};
    for i := 0 to |lines|
      invariant found == ImportNames(lines[..i])
      invariant forall j :: 0 <= j < i ==> !lines[j].star
    {
      assert lines[..i + 1] == lines[..i] + [lines[i]];
      if lines[i].star {
        return None;
      }
      found := found + lines[i].binds.Keys;
    }
    assert lines[..|lines|] == lines;
    names := Some(found);
  }

  /** _module_level_names */
  method ModuleLevelNames(m: Module) returns (r: Option<set<string>>)
    ensures r == ModuleNames(m)
  {
    var bound := CollectBound(m.top);
    var imported := CollectImported(AllImports(m));
    r := if imported.None? then None else Some({PATCH} + bound + imported.value);
  }

  /** undefined_names_in_patch */
  method UndefinedNamesInPatch(builtins: set<string>, m: Module) returns (broken: set<string>)
    ensures broken == Broken(builtins, m)
  {
    broken := {};
    var names := ModuleLevelNames(m);
    if names.None? {
      return;
    }
    var left := m.members.Keys;
    while left != {}
      invariant left <= m.members.Keys
      invariant broken == Broken(builtins, m) - left
      decreases |left|
    {
      var n :| n in left;
      if !(Sought(n, m.members[n]) <= names.value + builtins) {
        broken := broken + {n};
      }
      left := left - {n};
    }
  }

  /** _extract_toplevel_helpers: later statements overwrite what earlier ones filed. */
  method ExtractToplevelHelpers(top: seq<Statement>) returns (d: seq<(string, Statement)>)
    ensures d == Helpers(top)
  {
    d := [];
    for i := 0 to |top|
      invariant d == Helpers(top[..i])
    {
      assert top[..i + 1][..i] == top[..i];
      var names := HelperNames(top[i].kind);
      ghost var before := d;
      for j := 0 to |names|
        invariant d == PutAll(before, names[..j], top[i])
      {
        assert names[..j + 1][..j] == names[..j];
        d := Put(d, names[j], top[i]);
      }
      assert names[..|names|] == names;
    }
    assert top[..|top|] == top;
  }

  /** _extract_other_toplevel_statements: compound statements, each text once. */
  method ExtractOtherStatements(top: seq<Statement>) returns (kept: seq<Statement>)
    ensures kept == Others(top)
  {
    kept := [];
    for i := 0 to |top|
      invariant kept == Dedup(Compounds(top[..i]))
    {
      assert top[..i + 1][..i] == top[..i];
      ghost var compounds := Compounds(top[..i]);
      if top[i].kind.Compound? {
        assert (compounds + [top[i]])[..|compounds|] == compounds;
        if top[i] !in kept {
          kept := kept + [top[i]];
        }
      } else {
        assert Compounds(top[..i + 1]) == compounds;
      }
    }
    assert top[..|top|] == top;
  }
}
