/** When a merge or a replay passes the undefined-name check (cycle/materialize.py, _check_undefined_names). */
module Checked {
  import opened Names
  import opened Python
  import opened Harness
  import opened Materialize
  import opened MergeMeaning
  import opened Freeze
  import opened Toplevel

  // ---- what the extractors keep

  /** The names bound by statements the extractors carry over: a top-level async def is dropped. */
  function KeptNames(top: seq<Statement>): set<string> {
    set s, n | s in top && !s.kind.AsyncDef? && n in BoundBy(s.kind) :: n
  }

  function AsyncNames(top: seq<Statement>): set<string> {
    set s, n | s in top && s.kind.AsyncDef? && n in BoundBy(s.kind) :: n
  }

  lemma NamesSplit(top: seq<Statement>)
    ensures TopNames(top) == KeptNames(top) + AsyncNames(top)
  {}

  lemma {:induction false} PutFacts(d: seq<(string, Statement)>, n: string, s: Statement)
    ensures KeysOf(Put(d, n, s)) == KeysOf(d) + {n}
    ensures forall e :: e in Put(d, n, s) ==> e in d || e == (n, s)
    ensures (n, s) in Put(d, n, s)
  {
    if d != [] {
      assert d == [d[0]] + d[1..];
      KeysOfCons(d[0], d[1..]);
      if d[0].0 == n {
        KeysOfCons((n, s), d[1..]);
      } else {
        PutFacts(d[1..], n, s);
        KeysOfCons(d[0], Put(d[1..], n, s));
      }
    }
  }

  lemma KeysOfCons(e: (string, Statement), d: seq<(string, Statement)>)
    ensures KeysOf([e] + d) == {e.0} + KeysOf(d)
  {
    forall n | n in {e.0} + KeysOf(d) ensures n in KeysOf([e] + d) {
      if n == e.0 {
        assert e in [e] + d;
      } else {
        var x :| x in d && x.0 == n;
        assert x in [e] + d;
      }
    }
  }

  lemma {:induction false} PutAllFacts(d: seq<(string, Statement)>, names: seq<string>, s: Statement)
    ensures KeysOf(PutAll(d, names, s)) == KeysOf(d) + (set n | n in names)
    ensures forall e :: e in PutAll(d, names, s) ==> e in d || (e.0 in names && e.1 == s)
  {
    if names != [] {
      var init, n := names[..|names| - 1], names[|names| - 1];
      PutAllFacts(d, init, s);
      var before := PutAll(d, init, s);
      PutFacts(before, n, s);
      assert names == init + [n];
      assert PutAll(d, names, s) == Put(before, n, s);
      assert (set x | x in names) == (set x | x in init) + {n};
    }
  }

  lemma {:induction false} UpdateFacts(d: seq<(string, Statement)>, e: seq<(string, Statement)>)
    ensures KeysOf(Update(d, e)) == KeysOf(d) + KeysOf(e)
    ensures forall x :: x in Update(d, e) ==> x in d || x in e
  {
    if e != [] {
      var init, last := e[..|e| - 1], e[|e| - 1];
      UpdateFacts(d, init);
      PutFacts(Update(d, init), last.0, last.1);
      assert e == init + [last];
    }
  }

  lemma {:induction false} AsMapKeys(d: seq<(string, Statement)>)
    ensures AsMap(d).Keys == KeysOf(d)
    ensures forall n :: n in AsMap(d) ==> (n, AsMap(d)[n]) in d
  {
    if d != [] {
      var init, last := d[..|d| - 1], d[|d| - 1];
      AsMapKeys(init);
      assert d == init + [last];
    }
  }

  /** Filed under exactly the names they bind. */
  predicate IsHelper(s: Statement) {
    s.kind.ClassDef? || s.kind.FunctionDef? || s.kind.Assign? || s.kind.AnnAssign?
  }

  lemma FiledUnderBound(s: Statement)
    ensures (set n | n in HelperNames(s.kind)) == if IsHelper(s) then BoundBy(s.kind) else {}
  {}

  function HelperBound(top: seq<Statement>): set<string> {
    set s, n | s in top && IsHelper(s) && n in BoundBy(s.kind) :: n
  }

  function CompoundBound(top: seq<Statement>): set<string> {
    set s, n | s in top && s.kind.Compound? && n in BoundBy(s.kind) :: n
  }

  lemma KeptSplit(top: seq<Statement>)
    ensures KeptNames(top) == HelperBound(top) + CompoundBound(top)
  {}

  /** Each entry of a helper dict is filed under a name its statement binds, and all those names are keys. */
  predicate FiledRight(d: seq<(string, Statement)>, keys: set<string>) {
    && KeysOf(d) == keys
    && forall e :: e in d ==> IsHelper(e.1) && e.0 in BoundBy(e.1.kind) && BoundBy(e.1.kind) <= keys
  }

  lemma {:induction false} HelpersFacts(top: seq<Statement>)
    ensures FiledRight(Helpers(top), HelperBound(top))
    ensures forall e :: e in Helpers(top) ==> e.1 in top
  {
    if top != [] {
      var init, s := top[..|top| - 1], top[|top| - 1];
      HelpersFacts(init);
      FiledUnderBound(s);
      PutAllFacts(Helpers(init), HelperNames(s.kind), s);
      HelperBoundNext(init, s);
      assert top == init + [s];
    }
  }

  lemma HelperBoundNext(init: seq<Statement>, s: Statement)
    ensures HelperBound(init + [s]) == HelperBound(init) + (if IsHelper(s) then BoundBy(s.kind) else {})
  {
    forall n | n in HelperBound(init) + (if IsHelper(s) then BoundBy(s.kind) else {}) ensures n in HelperBound(init + [s]) {
      if n in HelperBound(init) {
        var t :| t in init && IsHelper(t) && n in BoundBy(t.kind);
        assert t in init + [s];
      } else {
        assert s in init + [s];
      }
    }
  }

  lemma {:induction false} CompoundsFacts(top: seq<Statement>)
    ensures forall s :: s in Compounds(top) <==> s in top && s.kind.Compound?
  {
    if top != [] {
      CompoundsFacts(top[..|top| - 1]);
      assert top == top[..|top| - 1] + [top[|top| - 1]];
    }
  }

  // ---- the names of the merged text

  lemma {:induction false} TopImportsFrom(top: seq<Statement>)
    ensures forall i :: i in TopImports(top) <==> exists s :: s in top && i in ImportsOf(s)
  {
    if top != [] {
      var init, s := top[..|top| - 1], top[|top| - 1];
      TopImportsFrom(init);
      assert top == init + [s];
    }
  }

  lemma LinesFacts(lines: seq<Import>)
    ensures forall s :: s in Lines(lines) ==> s.kind.ImportLine? && s.kind.line in lines && s.inner == []
    ensures forall i :: i in lines ==> Statement(ImportLine(i), [], "") in Lines(lines)
  {
    forall i | i in lines ensures Statement(ImportLine(i), [], "") in Lines(lines) {
      var k :| 0 <= k < |lines| && lines[k] == i;
      assert Lines(lines)[k] == Statement(ImportLine(i), [], "");
    }
  }

  lemma StatementsFacts(d: seq<(string, Statement)>)
    ensures forall s :: s in StatementsOf(d) <==> exists e :: e in d && e.1 == s
  {
    var all := seq(|d|, i requires 0 <= i < |d| => d[i].1);
    DedupFacts(all);
    forall s ensures s in all <==> exists e :: e in d && e.1 == s {
      if s in all {
        var i :| 0 <= i < |all| && all[i] == s;
        assert d[i] in d && d[i].1 == s;
      }
      if e :| e in d && e.1 == s {
        var i :| 0 <= i < |d| && d[i] == e;
        assert all[i] == s;
      }
    }
  }

  lemma NamesOfStatements(d: seq<(string, Statement)>, keys: set<string>)
    requires FiledRight(d, keys)
    ensures TopNames(StatementsOf(d)) == keys
  {
    StatementsFacts(d);
    forall n | n in keys ensures n in TopNames(StatementsOf(d)) {
      var e :| e in d && e.0 == n;
      assert e.1 in StatementsOf(d) && n in BoundBy(e.1.kind);
    }
  }

  lemma OthersFacts(a: seq<Statement>, b: seq<Statement>)
    ensures forall s :: s in Dedup(Others(a) + Others(b)) <==> (s in a || s in b) && s.kind.Compound?
    ensures TopNames(Dedup(Others(a) + Others(b))) == CompoundBound(a) + CompoundBound(b)
  {
    CompoundsFacts(a);
    CompoundsFacts(b);
    DedupFacts(Compounds(a));
    DedupFacts(Compounds(b));
    DedupFacts(Others(a) + Others(b));
  }

  lemma NamesOfBoth(a: seq<Statement>, b: seq<Statement>)
    ensures TopNames(a + b) == TopNames(a) + TopNames(b)
  {
    forall n | n in TopNames(a) + TopNames(b) ensures n in TopNames(a + b) {
      var s :| (s in a || s in b) && n in BoundBy(s.kind);
      assert s in a + b;
    }
  }

  /** What is carried over binds what the two texts bind outside async defs. */
  lemma CarriedNames(base: Module, patch: Module)
    ensures TopNames(Carried(base, patch)) == KeptNames(base.top) + KeptNames(patch.top)
  {
    var d := Update(Helpers(base.top), Helpers(patch.top));
    HelpersFacts(base.top);
    HelpersFacts(patch.top);
    UpdateFacts(Helpers(base.top), Helpers(patch.top));
    NamesOfStatements(d, HelperBound(base.top) + HelperBound(patch.top));
    OthersFacts(base.top, patch.top);
    NamesOfBoth(Dedup(Others(base.top) + Others(patch.top)), StatementsOf(d));
    KeptSplit(base.top);
    KeptSplit(patch.top);
  }

  lemma CarriedFrom(base: Module, patch: Module)
    ensures forall s :: s in Carried(base, patch) ==> s in base.top || s in patch.top
  {
    var d := Update(Helpers(base.top), Helpers(patch.top));
    HelpersFacts(base.top);
    HelpersFacts(patch.top);
    UpdateFacts(Helpers(base.top), Helpers(patch.top));
    StatementsFacts(d);
    OthersFacts(base.top, patch.top);
  }

  lemma LinesWithFacts(base: Module, patch: Module, extra: seq<Import>)
    ensures forall i :: i in LinesWith(base, patch, extra) <==> i in AllImports(base) || i in AllImports(patch) || i in extra
  {
    DedupFacts(AllImports(base));
    DedupFacts(AllImports(patch));
    DedupFacts(Dedup(AllImports(base)) + Dedup(AllImports(patch)) + extra);
  }

  /** A text of import lines and statements whose inner imports are among them imports just those lines. */
  lemma ImportsOfText(lines: seq<Import>, carried: seq<Statement>, inMembers: seq<Import>)
    requires forall s, i :: s in carried && i in ImportsOf(s) ==> i in lines
    requires forall i :: i in inMembers ==> i in lines
    ensures forall i :: i in TopImports(Lines(lines) + carried) + inMembers <==> i in lines
  {
    var top := Lines(lines) + carried;
    LinesFacts(lines);
    TopImportsFrom(top);
    forall i | i in lines ensures i in TopImports(top) {
      var s := Statement(ImportLine(i), [], "");
      assert s in top && i in ImportsOf(s);
    }
  }

  lemma CarriedImports(base: Module, patch: Module, carried: seq<Statement>)
    requires forall s :: s in carried ==> s in base.top || s in patch.top
    ensures forall s, i :: s in carried && i in ImportsOf(s) ==> i in AllImports(base) || i in AllImports(patch)
  {
    TopImportsFrom(base.top);
    TopImportsFrom(patch.top);
  }

  /** The merged text imports what the two texts import anywhere, and the combining helpers. */
  lemma MergedImports(base: Module, patch: Module)
    ensures forall i :: i in AllImports(MergedText(base, patch)) <==> i in AllImports(base) || i in AllImports(patch) || i in Extra(base, patch)
  {
    CarriedFrom(base, patch);
    CarriedImports(base, patch, Carried(base, patch));
    MergedImportsAre(base, patch, Carried(base, patch), Extra(base, patch));
    MergedTop(base, patch);
  }

  lemma MergedImportsAre(base: Module, patch: Module, carried: seq<Statement>, extra: seq<Import>)
    requires forall s, i :: s in carried && i in ImportsOf(s) ==> i in AllImports(base) || i in AllImports(patch)
    ensures forall i :: i in TopImports(Lines(LinesWith(base, patch, extra)) + carried) + (base.memberImports + patch.memberImports) <==>
              i in AllImports(base) || i in AllImports(patch) || i in extra
  {
    LinesWithFacts(base, patch, extra);
    ImportsOfText(LinesWith(base, patch, extra), carried, base.memberImports + patch.memberImports);
  }

  function ExtraNames(base: Module, patch: Module): set<string> {
    ImportNames(Extra(base, patch))
  }

  function Provided(m: Module): set<string> {
    {PATCH} + KeptNames(m.top) + ImportNames(AllImports(m))
  }

  /** Every name the merged text provides, builtins included. */
  function KnownAfter(builtins: set<string>, base: Module, patch: Module): set<string> {
    builtins + Provided(base) + Provided(patch) + ExtraNames(base, patch)
  }

  lemma ExtraLinesFacts(imports: map<string, string>)
    ensures forall i :: i in ExtraLines(imports) ==> !i.star
    ensures ImportNames(ExtraLines(imports)) == imports.Keys * {UNION_COLUMNS, UNION_CANDIDATES}
  {
    var lines := ExtraLines(imports);
    if UNION_COLUMNS in imports {
      assert lines[0] == Import(map[UNION_COLUMNS := imports[UNION_COLUMNS]], false);
      assert lines[0] in lines && UNION_COLUMNS in lines[0].binds.Keys;
    }
    if UNION_CANDIDATES in imports {
      var last := lines[|lines| - 1];
      assert last == Import(map[UNION_CANDIDATES := imports[UNION_CANDIDATES]], false);
      assert last in lines && UNION_CANDIDATES in last.binds.Keys;
    }
  }

  lemma ImportNamesOf(all: seq<Import>, a: seq<Import>, b: seq<Import>, c: seq<Import>)
    requires forall i :: i in all <==> i in a || i in b || i in c
    ensures ImportNames(all) == ImportNames(a) + ImportNames(b) + ImportNames(c)
  {
    forall n | n in ImportNames(a) + ImportNames(b) + ImportNames(c) ensures n in ImportNames(all) {
      var i :| (i in a || i in b || i in c) && n in i.binds.Keys;
      assert i in all;
    }
  }

  lemma MergedStar(base: Module, patch: Module)
    ensures HasStar(MergedText(base, patch)) <==> HasStar(base) || HasStar(patch)
  {
    MergedImports(base, patch);
    ExtraLinesFacts(ComposeAll(AsSource(base), AsSource(patch)).imports);
    if i :| (i in AllImports(base) || i in AllImports(patch)) && i.star {
      assert i in AllImports(MergedText(base, patch));
    }
  }

  lemma LinesBindNothing(lines: seq<Import>)
    ensures TopNames(Lines(lines)) == {}
  {
    LinesFacts(lines);
  }

  lemma MergedTop(base: Module, patch: Module)
    ensures MergedText(base, patch).top == Lines(LinesWith(base, patch, Extra(base, patch))) + Carried(base, patch)
  {}

  /** A merged text holds import lines and statements of the two texts. */
  lemma MergedStatements(base: Module, patch: Module)
    ensures forall s :: s in MergedText(base, patch).top ==> s.kind.ImportLine? || (s in Carried(base, patch) && (s in base.top || s in patch.top))
  {
    MergedTop(base, patch);
    var lines := LinesWith(base, patch, Extra(base, patch));
    LinesFacts(lines);
    CarriedFrom(base, patch);
  }

  /** The merged text begins with the import lines; compound statements come before the helpers. */
  lemma MergedTextOrder(base: Module, patch: Module, i: nat, j: nat)
    requires i < j < |MergedText(base, patch).top|
    ensures var top := MergedText(base, patch).top;
            (top[j].kind.ImportLine? ==> top[i].kind.ImportLine?) && (top[j].kind.Compound? ==> !IsHelper(top[i]))
  {
    var lines, others, helpers := MergedParts(base, patch);
    InOrderOf(lines, others, helpers, i, j);
  }

  lemma MergedParts(base: Module, patch: Module) returns (lines: seq<Statement>, others: seq<Statement>, helpers: seq<Statement>)
    ensures MergedText(base, patch).top == lines + (others + helpers)
    ensures AllImportLines(lines) && AllCompound(others) && AllHelpers(helpers)
  {
    lines := Lines(LinesWith(base, patch, Extra(base, patch)));
    others := Dedup(Others(base.top) + Others(patch.top));
    helpers := StatementsOf(Update(Helpers(base.top), Helpers(patch.top)));
    MergedTop(base, patch);
    LinesOnly(LinesWith(base, patch, Extra(base, patch)));
    OthersOnly(base.top, patch.top);
    HelpersOnly(base, patch);
  }

  predicate AllImportLines(top: seq<Statement>) {
    forall s :: s in top ==> s.kind.ImportLine?
  }

  predicate AllCompound(top: seq<Statement>) {
    forall s :: s in top ==> s.kind.Compound?
  }

  predicate AllHelpers(top: seq<Statement>) {
    forall s :: s in top ==> IsHelper(s)
  }

  lemma LinesOnly(lines: seq<Import>)
    ensures AllImportLines(Lines(lines))
  {
    LinesFacts(lines);
  }

  lemma OthersOnly(a: seq<Statement>, b: seq<Statement>)
    ensures AllCompound(Dedup(Others(a) + Others(b)))
  {
    OthersFacts(a, b);
  }

  lemma HelpersOnly(base: Module, patch: Module)
    ensures AllHelpers(StatementsOf(Update(Helpers(base.top), Helpers(patch.top))))
  {
    var d := Update(Helpers(base.top), Helpers(patch.top));
    HelpersFacts(base.top);
    HelpersFacts(patch.top);
    UpdateFacts(Helpers(base.top), Helpers(patch.top));
    StatementsFacts(d);
  }

  lemma InOrderOf(lines: seq<Statement>, others: seq<Statement>, helpers: seq<Statement>, i: nat, j: nat)
    requires AllImportLines(lines) && AllCompound(others) && AllHelpers(helpers)
    requires i < j < |lines + (others + helpers)|
    ensures var top := lines + (others + helpers);
            (top[j].kind.ImportLine? ==> top[i].kind.ImportLine?) && (top[j].kind.Compound? ==> !IsHelper(top[i]))
  {
    var top := lines + (others + helpers);
    assert i < |lines| ==> top[i] in lines;
    assert |lines| <= i < |lines| + |others| ==> top[i] in others;
    assert j < |lines| ==> top[j] in lines;
    assert |lines| <= j < |lines| + |others| ==> top[j] in others;
    assert |lines| + |others| <= j ==> top[j] in helpers;
  }

  lemma NamesWithLines(lines: seq<Import>, carried: seq<Statement>)
    ensures TopNames(Lines(lines) + carried) == TopNames(carried)
  {
    LinesBindNothing(lines);
    NamesOfBoth(Lines(lines), carried);
  }

  lemma MergedTopNames(base: Module, patch: Module)
    ensures TopNames(MergedText(base, patch).top) == KeptNames(base.top) + KeptNames(patch.top)
  {
    MergedTop(base, patch);
    NamesWithLines(LinesWith(base, patch, Extra(base, patch)), Carried(base, patch));
    CarriedNames(base, patch);
  }

  lemma MergedImportNames(base: Module, patch: Module)
    ensures ImportNames(AllImports(MergedText(base, patch))) ==
            ImportNames(AllImports(base)) + ImportNames(AllImports(patch)) + ExtraNames(base, patch)
  {
    MergedImports(base, patch);
    ImportNamesOf(AllImports(MergedText(base, patch)), AllImports(base), AllImports(patch), Extra(base, patch));
  }

  lemma Regroup(builtins: set<string>, p: set<string>, a: set<string>, b: set<string>, i: set<string>, j: set<string>, x: set<string>)
    ensures p + (a + b) + (i + j + x) + builtins == builtins + (p + a + i) + (p + b + j) + x
  {}

  lemma MergedNames(builtins: set<string>, base: Module, patch: Module)
    ensures var out := MergedText(base, patch);
            {PATCH} + TopNames(out.top) + ImportNames(AllImports(out)) + builtins == KnownAfter(builtins, base, patch)
  {
    MergedTopNames(base, patch);
    MergedImportNames(base, patch);
    Regroup(builtins, {PATCH}, KeptNames(base.top), KeptNames(patch.top),
            ImportNames(AllImports(base)), ImportNames(AllImports(patch)), ExtraNames(base, patch));
  }

  // ---- where the merged members come from

  ghost predicate Origin(base: Source, patch: Source, imports: set<string>, n: string, m: Method) {
    || (n in base.members && m == base.members[n])
    || (n in patch.members && m == patch.members[n])
    || Version(base, patch, n, m)
    || Globals(m.body) <= imports
  }

  /** m is one of the two versions of a composed hook, under a fresh name. */
  predicate VersionOf(base: Source, patch: Source, h: Hook, n: string, m: Method) {
    IsComposed(base, patch, h) && Fresh(base, patch, n) && (m == base.members[HookName(h)] || m == patch.members[HookName(h)])
  }

  ghost predicate Version(base: Source, patch: Source, n: string, m: Method) {
    exists h :: VersionOf(base, patch, h, n, m)
  }

  ghost predicate AllOrigin(base: Source, patch: Source, imports: set<string>, members: map<string, Method>) {
    forall n :: n in members ==> Origin(base, patch, imports, n, members[n])
  }

  lemma {:induction false} ComposeOrigins(k: nat, base: Source, patch: Source)
    requires k <= |COMPOSE_ORDER|
    ensures AllOrigin(base, patch, ComposeFirst(k, base, patch).imports.Keys, ComposeFirst(k, base, patch).members)
  {
    if k > 0 {
      ComposeOrigins(k - 1, base, patch);
      var h, st := COMPOSE_ORDER[k - 1], ComposeFirst(k - 1, base, patch);
      if IsComposed(base, patch, h) {
        ExistingCovers(k - 1, base, patch);
        ComposeStepOrigins(h, base, patch, st);
      }
    }
  }

  lemma ExistingCovers(k: nat, base: Source, patch: Source)
    requires k <= |COMPOSE_ORDER|
    ensures (base.members + patch.members).Keys <= ComposeFirst(k, base, patch).existing
  {
    ComposeFirstLaid(k, base, patch);
  }

  lemma ComposeStepOrigins(h: Hook, base: Source, patch: Source, st: Progress)
    requires IsComposed(base, patch, h) && (base.members + patch.members).Keys <= st.existing
    requires AllOrigin(base, patch, st.imports.Keys, st.members)
    ensures var nx := Compose(h, base, patch, st); AllOrigin(base, patch, nx.imports.Keys, nx.members)
  {
    var prev := UniqueName(PrevStem(h), st.existing);
    var newer := UniqueName(NewStem(h), st.existing + {prev});
    var nx := Compose(h, base, patch, st);
    WrapperRefs(h, prev, newer);
    forall n | n in nx.members ensures Origin(base, patch, nx.imports.Keys, n, nx.members[n]) {
      if n == HookName(h) {
      } else if n == prev || n == newer {
        assert VersionOf(base, patch, h, n, nx.members[n]);
      } else {
        assert Origin(base, patch, st.imports.Keys, n, st.members[n]);
      }
    }
  }

  lemma CoreOrigins(base: Source, patch: Source)
    ensures AllOrigin(base, patch, ComposeAll(base, patch).imports.Keys, CoreMembers(base, patch))
  {
    ComposeOrigins(|COMPOSE_ORDER|, base, patch);
  }

  lemma FrozenOrigins(base: Source, patch: Source, imports: set<string>, src: Source, params: Option<map<string, int>>)
    requires AllOrigin(base, patch, imports, src.members)
    ensures AllOrigin(base, patch, imports, Frozen(src, params).members)
  {
    if params.Some? && HookName(ParamCandidates) in src.members {
      PruneKeeps(src.members[HookName(ParamCandidates) := FrozenMethod(params.value)]);
      assert Globals(FrozenMethod(params.value).body) == {};
    }
  }

  lemma OnlyUnionsAdded(base: Source, patch: Source)
    ensures ComposeAll(base, patch).imports.Keys == ImportNames(ExtraLines(ComposeAll(base, patch).imports))
  {
    ComposeFirstLaid(|COMPOSE_ORDER|, base, patch);
    ExtraLinesFacts(ComposeAll(base, patch).imports);
  }

  lemma MergedOrigins(base: Module, patch: Module)
    ensures AllOrigin(AsSource(base), AsSource(patch), ExtraNames(base, patch), MergedText(base, patch).members)
  {
    var b, p := AsSource(base), AsSource(patch);
    CoreOrigins(b, p);
    OnlyUnionsAdded(b, p);
    FrozenOrigins(b, p, ExtraNames(base, patch), CoreSource(b, p), ExtractFrozen(p));
  }

  // ---- when the merge passes

  /** A version of a composed hook, still among the members, looks for the hook's bare name, which it lost with
      the renaming and which nothing provides. */
  ghost predicate HookSeeksItself(base: Source, patch: Source, members: map<string, Method>, known: set<string>) {
    exists n, h ::
      && n in members && VersionOf(base, patch, h, n, members[n])
      && HookName(h) in Sought(n, members[n]) && HookName(h) !in known
  }

  /** A method, still among the members, looks for one of the lost names. */
  ghost predicate SeeksLost(members: map<string, Method>, lost: set<string>, known: set<string>) {
    exists n, g :: n in members && g in Sought(n, members[n]) && g in lost && g !in known
  }

  ghost predicate Finds(members: map<string, Method>, names: set<string>) {
    forall n :: n in members ==> Sought(n, members[n]) <= names
  }

  /** A member of the merged class finds what it looks for among the known names, unless it is one of the two
      failing kinds. */
  lemma MemberFinds(base: Source, patch: Source, extra: set<string>, known: set<string>, lost: set<string>,
                    members: map<string, Method>, n: string, g: string)
    requires Finds(base.members, known + lost) && Finds(patch.members, known + lost) && extra <= known
    requires AllOrigin(base, patch, extra, members) && n in members && g in Sought(n, members[n])
    requires !HookSeeksItself(base, patch, members, known) && !SeeksLost(members, lost, known)
    ensures g in known
  {
    var m := members[n];
    assert Origin(base, patch, extra, n, m);
    if n in base.members && m == base.members[n] {
      assert g in known + lost;
    } else if n in patch.members && m == patch.members[n] {
      assert g in known + lost;
    } else if h :| VersionOf(base, patch, h, n, m) {
      if g != HookName(h) {
        assert g in Sought(HookName(h), m);
        assert g in known + lost;
      }
    }
  }

  lemma FindsExactly(base: Source, patch: Source, extra: set<string>, known: set<string>, lost: set<string>, members: map<string, Method>)
    requires Finds(base.members, known + lost) && Finds(patch.members, known + lost) && extra <= known
    requires AllOrigin(base, patch, extra, members)
    ensures Finds(members, known) <==> !HookSeeksItself(base, patch, members, known) && !SeeksLost(members, lost, known)
  {
    if !HookSeeksItself(base, patch, members, known) && !SeeksLost(members, lost, known) {
      forall n | n in members ensures Sought(n, members[n]) <= known {
        forall g | g in Sought(n, members[n]) ensures g in known {
          MemberFinds(base, patch, extra, known, lost, members, n, g);
        }
      }
    }
  }

  /** Without a star import, passing means that every method finds what it looks for. */
  lemma PassesMeans(builtins: set<string>, m: Module)
    requires !HasStar(m)
    ensures Passes(builtins, m) <==> Finds(m.members, {PATCH} + TopNames(m.top) + ImportNames(AllImports(m)) + builtins)
  {
    var names := {PATCH} + TopNames(m.top) + ImportNames(AllImports(m));
    assert names + builtins == {PATCH} + TopNames(m.top) + ImportNames(AllImports(m)) + builtins;
    if Passes(builtins, m) {
      forall n | n in m.members ensures Sought(n, m.members[n]) <= names + builtins {
        assert n !in Broken(builtins, m);
      }
    }
  }

  /** A top-level statement that gives the module a name, imports apart. */
  predicate Binds(s: Statement, g: string) {
    match s.kind
    case ImportLine(_) => false
    case ClassDef(name) => g == name
    case FunctionDef(name) => g == name
    case AsyncDef(name) => g == name
    case Assign(targets) => g in targets
    case AnnAssign(target) => target == Some(g)
    case Compound(stores) => g in stores
  }

  /** The text imports this line, at its top, inside a statement or inside a method. */
  predicate ImportsLine(m: Module, i: Import) {
    i in m.memberImports || exists s :: s in m.top && (s.kind == ImportLine(i) || i in s.inner)
  }

  ghost predicate Provides(builtins: set<string>, m: Module, g: string) {
    || g in builtins || g == PATCH
    || (exists s :: s in m.top && Binds(s, g))
    || (exists i :: ImportsLine(m, i) && g in i.binds)
  }

  lemma ImportsLineMeans(m: Module, i: Import)
    ensures ImportsLine(m, i) <==> i in AllImports(m)
  {
    TopImportsFrom(m.top);
    forall s ensures i in ImportsOf(s) <==> s.kind == ImportLine(i) || i in s.inner {}
  }

  lemma ProvidesMeans(builtins: set<string>, m: Module, g: string)
    ensures Provides(builtins, m, g) <==> g in {PATCH} + TopNames(m.top) + ImportNames(AllImports(m)) + builtins
  {
    forall s ensures Binds(s, g) <==> g in BoundBy(s.kind) {}
    forall i ensures ImportsLine(m, i) <==> i in AllImports(m) { ImportsLineMeans(m, i); }
  }

  /** What the check lets pass: a star import anywhere, or every name that a method loads is its own, bound in its
      text, a builtin, or provided by the module in one of the ways listed. */
  lemma PassesExactly(builtins: set<string>, m: Module)
    ensures Passes(builtins, m) <==>
            || (exists i :: ImportsLine(m, i) && i.star)
            || forall n, g :: n in m.members && g in Globals(m.members[n].body) ==>
                 g == n || g in m.members[n].masked || Provides(builtins, m, g)
  {
    forall i ensures ImportsLine(m, i) <==> i in AllImports(m) { ImportsLineMeans(m, i); }
    if !HasStar(m) {
      PassesMeans(builtins, m);
      forall g ensures Provides(builtins, m, g) <==> g in {PATCH} + TopNames(m.top) + ImportNames(AllImports(m)) + builtins {
        ProvidesMeans(builtins, m, g);
      }
      FindsMeans(m.members, {PATCH} + TopNames(m.top) + ImportNames(AllImports(m)) + builtins);
    }
  }

  lemma FindsMeans(members: map<string, Method>, names: set<string>)
    ensures Finds(members, names) <==>
            forall n, g :: n in members && g in Globals(members[n].body) ==> g == n || g in members[n].masked || g in names
  {
    if Finds(members, names) {
      forall n, g | n in members && g in Globals(members[n].body) ensures g == n || g in members[n].masked || g in names {
        assert Sought(n, members[n]) <= names;
      }
    }
  }

  lemma PassingFinds(builtins: set<string>, m: Module, known: set<string>, lost: set<string>)
    requires Passes(builtins, m) && !HasStar(m)
    requires builtins + Provided(m) <= known && AsyncNames(m.top) <= lost
    ensures Finds(m.members, known + lost)
  {
    PassesMeans(builtins, m);
    NamesSplit(m.top);
  }

  function LostNames(base: Module, patch: Module): set<string> {
    AsyncNames(base.top) + AsyncNames(patch.top)
  }

  /** Two texts that pass the check merge into a text that passes it exactly when a star import switches the
      check off, or no renamed hook seeks itself and no method seeks an async def. The added imports and
      wrappers never fail it. */
  lemma MergePassesExactly(builtins: set<string>, base: Module, patch: Module)
    requires Passes(builtins, base) && Passes(builtins, patch)
    ensures var members, known := MergedText(base, patch).members, KnownAfter(builtins, base, patch);
            Passes(builtins, MergedText(base, patch)) <==>
              || HasStar(base) || HasStar(patch)
              || (!HookSeeksItself(AsSource(base), AsSource(patch), members, known)
                  && !SeeksLost(members, LostNames(base, patch), known))
  {
    var out, known := MergedText(base, patch), KnownAfter(builtins, base, patch);
    MergedStar(base, patch);
    if !HasStar(out) {
      MergedNames(builtins, base, patch);
      MergedOrigins(base, patch);
      PassingFinds(builtins, base, known, LostNames(base, patch));
      PassingFinds(builtins, patch, known, LostNames(base, patch));
      FindsExactly(AsSource(base), AsSource(patch), ExtraNames(base, patch), known, LostNames(base, patch), out.members);
      PassesMeans(builtins, out);
    }
  }

  // ---- without a freeze, in terms of the two texts

  /** A hook's method looks for the hook's bare name, which is not known. */
  predicate SeeksOwn(src: Source, h: Hook, known: set<string>)
    requires Defines(src, h)
  {
    HookName(h) in Globals(src.members[HookName(h)].body) - src.members[HookName(h)].masked && HookName(h) !in known
  }

  predicate NoAsync(m: Module) {
    forall s :: s in m.top ==> !s.kind.AsyncDef?
  }

  /** With no star import, async def, freeze mark or helper collision, the merge goes through exactly when no
      version of a composed hook loads the hook's own name with nothing else binding it. */
  lemma UnfrozenMergePassesExactly(builtins: set<string>, base: Module, patch: Module)
    requires Passes(builtins, base) && Passes(builtins, patch)
    requires !HasStar(base) && !HasStar(patch) && NoAsync(base) && NoAsync(patch)
    requires ExtractFrozen(AsSource(patch)).None?
    requires RealCollisions(AsMap(Helpers(base.top)), AsMap(Helpers(patch.top))) == {}
    ensures MergeTexts(builtins, base, patch).Fine? <==>
            forall h :: IsComposed(AsSource(base), AsSource(patch), h) ==>
              !SeeksOwn(AsSource(base), h, KnownAfter(builtins, base, patch)) && !SeeksOwn(AsSource(patch), h, KnownAfter(builtins, base, patch))
  {
    PlainMergePasses(builtins, base, patch);
    CoreSeeksExactly(AsSource(base), AsSource(patch), KnownAfter(builtins, base, patch));
  }

  lemma PlainMergePasses(builtins: set<string>, base: Module, patch: Module)
    requires Passes(builtins, base) && Passes(builtins, patch)
    requires !HasStar(base) && !HasStar(patch) && NoAsync(base) && NoAsync(patch)
    requires ExtractFrozen(AsSource(patch)).None?
    requires RealCollisions(AsMap(Helpers(base.top)), AsMap(Helpers(patch.top))) == {}
    ensures var b, p := AsSource(base), AsSource(patch);
            MergeTexts(builtins, base, patch).Fine? <==> !HookSeeksItself(b, p, CoreMembers(b, p), KnownAfter(builtins, base, patch))
  {
    FineMeansPasses(builtins, base, patch);
    MergePassesExactly(builtins, base, patch);
    NoneLost(base, patch);
    UnfrozenMembers(base, patch);
    var members, known := MergedText(base, patch).members, KnownAfter(builtins, base, patch);
    assert !SeeksLost(members, LostNames(base, patch), known);
  }

  lemma FineMeansPasses(builtins: set<string>, base: Module, patch: Module)
    requires RealCollisions(AsMap(Helpers(base.top)), AsMap(Helpers(patch.top))) == {}
    ensures MergeTexts(builtins, base, patch).Fine? <==> Passes(builtins, MergedText(base, patch))
  {}

  lemma NoneLost(base: Module, patch: Module)
    requires NoAsync(base) && NoAsync(patch)
    ensures LostNames(base, patch) == {}
  {}

  lemma UnfrozenMembers(base: Module, patch: Module)
    requires ExtractFrozen(AsSource(patch)).None?
    ensures MergedText(base, patch).members == CoreMembers(AsSource(base), AsSource(patch))
  {}

  lemma CoreSeeksExactly(base: Source, patch: Source, known: set<string>)
    ensures HookSeeksItself(base, patch, CoreMembers(base, patch), known) <==>
            exists h :: IsComposed(base, patch, h) && (SeeksOwn(base, h, known) || SeeksOwn(patch, h, known))
  {
    var members := CoreMembers(base, patch);
    if h :| IsComposed(base, patch, h) && (SeeksOwn(base, h, known) || SeeksOwn(patch, h, known)) {
      HookPlaces(base, patch, h);
      var prev, newer :| ComposedAs(members, base, patch, h, prev, newer);
      HookNameIsHookName(h);
      assert VersionOf(base, patch, h, prev, members[prev]) && VersionOf(base, patch, h, newer, members[newer]);
    }
  }

  // ---- histories

  predicate UniqueKeys(d: seq<(string, Statement)>) {
    forall i, j :: 0 <= i < j < |d| ==> d[i].0 != d[j].0
  }

  lemma {:induction false} PutUnique(d: seq<(string, Statement)>, n: string, s: Statement)
    requires UniqueKeys(d)
    ensures UniqueKeys(Put(d, n, s))
  {
    if d != [] && d[0].0 != n {
      var rest := Put(d[1..], n, s);
      PutUnique(d[1..], n, s);
      PutFacts(d[1..], n, s);
      forall j | 0 <= j < |rest| ensures rest[j].0 != d[0].0 {
        assert rest[j] in rest;
      }
    }
  }

  lemma {:induction false} PutAllUnique(d: seq<(string, Statement)>, names: seq<string>, s: Statement)
    requires UniqueKeys(d)
    ensures UniqueKeys(PutAll(d, names, s))
  {
    if names != [] {
      PutAllUnique(d, names[..|names| - 1], s);
      PutUnique(PutAll(d, names[..|names| - 1], s), names[|names| - 1], s);
    }
  }

  lemma {:induction false} HelpersUnique(top: seq<Statement>)
    ensures UniqueKeys(Helpers(top))
  {
    if top != [] {
      HelpersUnique(top[..|top| - 1]);
      PutAllUnique(Helpers(top[..|top| - 1]), HelperNames(top[|top| - 1].kind), top[|top| - 1]);
    }
  }

  /** A dict maps a key to what is filed under it. */
  lemma HelperIs(top: seq<Statement>, e: (string, Statement))
    requires e in Helpers(top)
    ensures e.0 in AsMap(Helpers(top)) && AsMap(Helpers(top))[e.0] == e.1
  {
    var d := Helpers(top);
    AsMapKeys(d);
    HelpersUnique(top);
    var i :| 0 <= i < |d| && d[i] == e;
    assert e.0 in KeysOf(d);
    var j :| 0 <= j < |d| && d[j] == (e.0, AsMap(d)[e.0]);
    assert i == j;
  }

  lemma {:induction false} PutKeeps(d: seq<(string, Statement)>, n: string, s: Statement, e: (string, Statement))
    requires e in d && e.0 != n
    ensures e in Put(d, n, s)
  {
    if d[0].0 == n {
      assert e in d[1..];
    } else if d[0] != e {
      PutKeeps(d[1..], n, s, e);
    }
  }

  lemma {:induction false} PutAllKeeps(d: seq<(string, Statement)>, names: seq<string>, s: Statement, n: string)
    ensures n in names ==> (n, s) in PutAll(d, names, s)
    ensures n !in names ==> forall t :: (n, t) in d ==> (n, t) in PutAll(d, names, s)
  {
    if names != [] {
      var init, last := names[..|names| - 1], names[|names| - 1];
      assert names == init + [last];
      PutAllKeeps(d, init, s, n);
      var before := PutAll(d, init, s);
      PutFacts(before, last, s);
      if n != last {
        forall t | (n, t) in before ensures (n, t) in Put(before, last, s) { PutKeeps(before, last, s, (n, t)); }
      }
    }
  }

  predicate Files(s: Statement, n: string) {
    n in HelperNames(s.kind)
  }

  lemma {:induction false} LastIsFiled(top: seq<Statement>, n: string, k: nat)
    requires k < |top| && Files(top[k], n) && forall j :: k < j < |top| ==> !Files(top[j], n)
    ensures (n, top[k]) in Helpers(top)
  {
    var init, s := top[..|top| - 1], top[|top| - 1];
    PutAllKeeps(Helpers(init), HelperNames(s.kind), s, n);
    if k < |init| { LastIsFiled(init, n, k); }
  }

  /** Of several helpers under one name the extractor keeps the last. */
  lemma LastDefinitionWins(top: seq<Statement>, n: string, k: nat)
    requires k < |top| && Files(top[k], n) && forall j :: k < j < |top| ==> !Files(top[j], n)
    ensures n in AsMap(Helpers(top)) && AsMap(Helpers(top))[n] == top[k]
  {
    LastIsFiled(top, n, k);
    HelperIs(top, (n, top[k]));
  }

  /** Of several imports of one name the last counts. */
  lemma {:induction false} LastImportWins(lines: seq<Import>, n: string, k: nat)
    requires k < |lines| && n in lines[k].binds && forall j :: k < j < |lines| ==> n !in lines[j].binds
    ensures n in Bindings(lines) && Bindings(lines)[n] == lines[k].binds[n]
  {
    if k < |lines| - 1 { LastImportWins(lines[..|lines| - 1], n, k); }
  }

  /** No assignment with several plain-name targets. */
  predicate OneName(m: Module) {
    forall s, g, n :: s in m.top && IsHelper(s) && g in BoundBy(s.kind) && n in BoundBy(s.kind) ==> g == n
  }

  lemma MergedOneName(base: Module, patch: Module)
    requires OneName(base) && OneName(patch)
    ensures OneName(MergedText(base, patch))
  {
    MergedStatements(base, patch);
  }

  ghost predicate FiledIn(d: seq<(string, Statement)>, s: Statement) {
    exists x :: x in d && x.1 == s
  }

  /** A helper of a text whose helper statements are those of a dict, one name each, is an entry of the dict. */
  lemma HelperOfTop(top: seq<Statement>, d: seq<(string, Statement)>, e: (string, Statement))
    requires forall s :: s in top && IsHelper(s) ==> FiledIn(d, s)
    requires forall x, n :: x in d && n in BoundBy(x.1.kind) ==> n == x.0
    requires e in Helpers(top)
    ensures e in d
  {
    HelpersFacts(top);
    assert FiledIn(d, e.1);
  }

  lemma OneNameFiled(m: Module)
    requires OneName(m)
    ensures forall x, n :: x in Helpers(m.top) && n in BoundBy(x.1.kind) ==> n == x.0
  {
    HelpersFacts(m.top);
  }

  /** The merge files each helper under the name it had in one of the two texts. */
  lemma MergedHelper(base: Module, patch: Module, e: (string, Statement))
    requires OneName(base) && OneName(patch) && e in Helpers(MergedText(base, patch).top)
    ensures e in Helpers(base.top) || e in Helpers(patch.top)
  {
    var d := Update(Helpers(base.top), Helpers(patch.top));
    MergedFiled(base, patch, MergedText(base, patch).top);
    UpdateFacts(Helpers(base.top), Helpers(patch.top));
    OneNameFiled(base);
    OneNameFiled(patch);
    HelperOfTop(MergedText(base, patch).top, d, e);
  }

  lemma MergedFiled(base: Module, patch: Module, top: seq<Statement>)
    requires top == MergedText(base, patch).top
    ensures forall s :: s in top && IsHelper(s) ==> FiledIn(Update(Helpers(base.top), Helpers(patch.top)), s)
  {
    MergedStatements(base, patch);
    forall s | s in top && IsHelper(s) ensures FiledIn(Update(Helpers(base.top), Helpers(patch.top)), s) {
      CarriedHelper(base, patch, s);
    }
  }

  lemma CarriedHelper(base: Module, patch: Module, s: Statement)
    requires s in Carried(base, patch) && IsHelper(s)
    ensures exists e :: e in Update(Helpers(base.top), Helpers(patch.top)) && e.1 == s
  {
    OthersFacts(base.top, patch.top);
    StatementsFacts(Update(Helpers(base.top), Helpers(patch.top)));
  }

  /** Composable hooks do not lean on the check's leniency towards their own name. */
  predicate HooksSafe(builtins: set<string>, m: Module) {
    HasStar(m) || forall h :: Composable(h) && HookName(h) in m.members ==> !SeeksOwn(AsSource(m), h, builtins + Provided(m))
  }

  predicate Ready(builtins: set<string>, m: Module) {
    Passes(builtins, m) && NoAsync(m) && OneName(m) && HooksSafe(builtins, m)
  }

  lemma SafeHooksSeekNothing(builtins: set<string>, base: Module, patch: Module)
    requires HooksSafe(builtins, base) && HooksSafe(builtins, patch) && !HasStar(base) && !HasStar(patch)
    ensures !HookSeeksItself(AsSource(base), AsSource(patch), MergedText(base, patch).members, KnownAfter(builtins, base, patch))
  {
    var b, p := AsSource(base), AsSource(patch);
    var known := KnownAfter(builtins, base, patch);
    assert builtins + Provided(base) <= known && builtins + Provided(patch) <= known;
    SafeVersions(b, p, MergedText(base, patch).members, builtins + Provided(base), builtins + Provided(patch), known);
  }

  lemma SafeVersions(base: Source, patch: Source, members: map<string, Method>, forBase: set<string>, forPatch: set<string>, known: set<string>)
    requires forBase <= known && forPatch <= known
    requires forall h :: Composable(h) && Defines(base, h) ==> !SeeksOwn(base, h, forBase)
    requires forall h :: Composable(h) && Defines(patch, h) ==> !SeeksOwn(patch, h, forPatch)
    ensures !HookSeeksItself(base, patch, members, known)
  {
    forall n, h | n in members && VersionOf(base, patch, h, n, members[n]) && HookName(h) in Sought(n, members[n])
      ensures HookName(h) in known
    {
      assert !SeeksOwn(base, h, forBase) && !SeeksOwn(patch, h, forPatch);
    }
  }

  lemma MergedPasses(builtins: set<string>, base: Module, patch: Module)
    requires Ready(builtins, base) && Ready(builtins, patch)
    ensures Passes(builtins, MergedText(base, patch))
  {
    MergePassesExactly(builtins, base, patch);
    if !HasStar(base) && !HasStar(patch) {
      SafeHooksSeekNothing(builtins, base, patch);
      NoneLost(base, patch);
      assert !SeeksLost(MergedText(base, patch).members, LostNames(base, patch), KnownAfter(builtins, base, patch));
    }
  }

  lemma MergedNoAsync(base: Module, patch: Module)
    requires NoAsync(base) && NoAsync(patch)
    ensures NoAsync(MergedText(base, patch))
  {
    MergedStatements(base, patch);
  }

  /** Under a hook's name the merged class has a wrapper, a frozen list, or one of the two texts. */
  lemma TopIs(base: Source, patch: Source, h: Hook)
    requires Composable(h) && HookName(h) in Frozen(CoreSource(base, patch), ExtractFrozen(patch)).members
    ensures var m := Frozen(CoreSource(base, patch), ExtractFrozen(patch)).members[HookName(h)];
            || HookName(h) !in Globals(m.body)
            || (Defines(base, h) && m == base.members[HookName(h)])
            || (Defines(patch, h) && m == patch.members[HookName(h)])
  {
    var core := CoreSource(base, patch);
    if ExtractFrozen(patch).Some? && Defines(core, ParamCandidates) {
      PruneKeeps(core.members[HookName(ParamCandidates) := FrozenMethod(ExtractFrozen(patch).value)]);
      assert Globals(FrozenMethod(ExtractFrozen(patch).value).body) == {};
    }
    if HookName(h) in core.members { CoreTopIs(base, patch, h); }
  }

  lemma CoreTopIs(base: Source, patch: Source, h: Hook)
    requires Composable(h) && HookName(h) in CoreMembers(base, patch)
    ensures var m := CoreMembers(base, patch)[HookName(h)];
            || HookName(h) !in Globals(m.body)
            || (Defines(base, h) && m == base.members[HookName(h)])
            || (Defines(patch, h) && m == patch.members[HookName(h)])
  {
    HookPlaces(base, patch, h);
    if IsComposed(base, patch, h) {
      var prev, newer :| ComposedAs(CoreMembers(base, patch), base, patch, h, prev, newer);
      WrapperRefs(h, prev, newer);
      HookNameIsHookName(h);
      assert UNION_COLUMNS[0] == '_' && UNION_CANDIDATES[0] == '_';
    }
  }

  lemma MergedSafe(builtins: set<string>, base: Module, patch: Module)
    requires Ready(builtins, base) && Ready(builtins, patch)
    ensures HooksSafe(builtins, MergedText(base, patch))
  {
    var out := MergedText(base, patch);
    MergedStar(base, patch);
    if !HasStar(out) {
      var known := KnownAfter(builtins, base, patch);
      MergedProvides(builtins, base, patch);
      assert builtins + Provided(base) <= known && builtins + Provided(patch) <= known;
      TopsSafe(AsSource(base), AsSource(patch), builtins + Provided(base), builtins + Provided(patch), known, AsSource(out));
    }
  }

  lemma MergedProvides(builtins: set<string>, base: Module, patch: Module)
    requires NoAsync(base) && NoAsync(patch)
    ensures builtins + Provided(MergedText(base, patch)) == KnownAfter(builtins, base, patch)
  {
    var out := MergedText(base, patch);
    MergedNoAsync(base, patch);
    MergedNames(builtins, base, patch);
    NamesSplit(out.top);
    assert AsyncNames(out.top) == {};
  }

  lemma TopsSafe(base: Source, patch: Source, forBase: set<string>, forPatch: set<string>, known: set<string>, out: Source)
    requires forBase <= known && forPatch <= known
    requires forall h :: Composable(h) && Defines(base, h) ==> !SeeksOwn(base, h, forBase)
    requires forall h :: Composable(h) && Defines(patch, h) ==> !SeeksOwn(patch, h, forPatch)
    requires out.members == Frozen(CoreSource(base, patch), ExtractFrozen(patch)).members
    ensures forall h :: Composable(h) && HookName(h) in out.members ==> !SeeksOwn(out, h, known)
  {
    forall h | Composable(h) && HookName(h) in out.members ensures !SeeksOwn(out, h, known) {
      TopIs(base, patch, h);
    }
  }

  ghost predicate HelpersFrom(codes: seq<Module>, m: Module) {
    forall e :: e in Helpers(m.top) ==> exists i :: 0 <= i < |codes| && e in Helpers(codes[i].top)
  }

  predicate HelpersAgree(a: Module, b: Module) {
    RealCollisions(AsMap(Helpers(a.top)), AsMap(Helpers(b.top))) == {}
  }

  lemma AgreesAt(codes: seq<Module>, best: Module, code: Module, n: string)
    requires HelpersFrom(codes, best)
    requires forall i :: 0 <= i < |codes| ==> HelpersAgree(codes[i], code)
    requires n in AsMap(Helpers(best.top)) && n in AsMap(Helpers(code.top))
    ensures AsMap(Helpers(best.top))[n] == AsMap(Helpers(code.top))[n]
  {
    AsMapKeys(Helpers(best.top));
    var e := (n, AsMap(Helpers(best.top))[n]);
    var i :| 0 <= i < |codes| && e in Helpers(codes[i].top);
    HelperIs(codes[i].top, e);
    assert HelpersAgree(codes[i], code);
    assert n !in RealCollisions(AsMap(Helpers(codes[i].top)), AsMap(Helpers(code.top)));
  }

  lemma NoCollision(codes: seq<Module>, best: Module, code: Module)
    requires HelpersFrom(codes, best)
    requires forall i :: 0 <= i < |codes| ==> HelpersAgree(codes[i], code)
    ensures HelpersAgree(best, code)
  {
    forall n | n in AsMap(Helpers(best.top)) && n in AsMap(Helpers(code.top))
      ensures AsMap(Helpers(best.top))[n] == AsMap(Helpers(code.top))[n]
    {
      AgreesAt(codes, best, code, n);
    }
  }

  lemma MergedFrom(codes: seq<Module>, best: Module, code: Module)
    requires HelpersFrom(codes, best) && OneName(best) && OneName(code)
    ensures HelpersFrom(codes + [code], MergedText(best, code))
  {
    var all := codes + [code];
    forall e | e in Helpers(MergedText(best, code).top) ensures exists i :: 0 <= i < |all| && e in Helpers(all[i].top) {
      MergedHelper(best, code, e);
      if e in Helpers(code.top) {
        assert e in Helpers(all[|codes|].top);
      } else {
        var i :| 0 <= i < |codes| && e in Helpers(codes[i].top);
        assert e in Helpers(all[i].top);
      }
    }
  }

  /** Any history of texts that pass, whose helpers agree and whose composable hooks do not seek their own bare
      names, replays without error into a text that passes, whatever else they have in common. */
  lemma {:induction false} CheckedHistoriesReplay(builtins: set<string>, codes: seq<Module>)
    requires forall i :: 0 <= i < |codes| ==> Ready(builtins, codes[i])
    requires forall i, j :: 0 <= i < j < |codes| ==> HelpersAgree(codes[i], codes[j])
    ensures ReplayTexts(builtins, codes).Fine?
    ensures Ready(builtins, ReplayTexts(builtins, codes).text) && HelpersFrom(codes, ReplayTexts(builtins, codes).text)
  {
    if codes == [] {
      BareModule(builtins, EMPTY_MODULE);
    } else {
      var init, code := codes[..|codes| - 1], codes[|codes| - 1];
      assert codes == init + [code];
      CheckedHistoriesReplay(builtins, init);
      var best := ReplayTexts(builtins, init).text;
      NoCollision(init, best, code);
      StepReady(builtins, best, code);
      MergedFrom(init, best, code);
    }
  }

  lemma StepReady(builtins: set<string>, best: Module, code: Module)
    requires Ready(builtins, best) && Ready(builtins, code) && HelpersAgree(best, code)
    ensures MergeTexts(builtins, best, code) == Fine(MergedText(best, code))
    ensures Ready(builtins, MergedText(best, code))
  {
    MergedPasses(builtins, best, code);
    MergedNoAsync(best, code);
    MergedOneName(best, code);
    MergedSafe(builtins, best, code);
  }

  // ---- against the check on classes

  predicate PlainTop(m: Module) {
    forall s :: s in m.top ==> s.kind.ImportLine? || IsHelper(s)
  }

  lemma {:induction false} BindingsKeys(lines: seq<Import>)
    ensures Bindings(lines).Keys == ImportNames(lines)
  {
    if lines != [] {
      var init, last := lines[..|lines| - 1], lines[|lines| - 1];
      BindingsKeys(init);
      assert lines == init + [last];
      forall n | n in ImportNames(init) + last.binds.Keys ensures n in ImportNames(lines) {
        var i :| i in lines && n in i.binds.Keys;
      }
    }
  }

  lemma SourceNames(m: Module)
    requires PlainTop(m)
    ensures AsSource(m).helpers.Keys == TopNames(m.top)
    ensures AsSource(m).imports.Keys == ImportNames(AllImports(m))
  {
    HelpersFacts(m.top);
    AsMapKeys(Helpers(m.top));
    BindingsKeys(AllImports(m));
    assert TopNames(m.top) == HelperBound(m.top);
  }

  lemma UndefinedMeans(builtins: set<string>, src: Source)
    ensures forall n :: n in src.members ==>
              (n in UndefinedMembers(builtins, src) <==> !(Sought(n, src.members[n]) <= builtins + src.helpers.Keys + src.imports.Keys))
  {
    var names := builtins + src.helpers.Keys + src.imports.Keys;
    assert forall g :: Resolve(builtins, src, g).Undefined? <==> g !in names;
  }

  /** For a text of imports, classes, functions and assignments, the check on the text and the check on the class
      it stands for find the same. */
  lemma CheckAgrees(builtins: set<string>, m: Module)
    requires PlainTop(m) && !HasStar(m)
    ensures Broken(builtins, m) == UndefinedMembers(builtins + {PATCH}, AsSource(m))
  {
    SourceNames(m);
    UndefinedMeans(builtins + {PATCH}, AsSource(m));
    var names := ModuleNames(m).value;
    assert names + builtins == builtins + {PATCH} + TopNames(m.top) + ImportNames(AllImports(m));
  }

  // ---- texts that fail, or lose a name

  function OnlyMembers(members: map<string, Method>): Module {
    EMPTY_MODULE.(members := members)
  }

  lemma BareModule(builtins: set<string>, m: Module)
    requires m.top == [] && m.memberImports == []
    ensures AllImports(m) == [] && !HasStar(m) && NoAsync(m) && Helpers(m.top) == []
    ensures Provided(m) == {PATCH}
    ensures Passes(builtins, m) <==> Finds(m.members, {PATCH} + builtins)
  {
    PassesMeans(builtins, m);
    assert TopNames(m.top) == {} && ImportNames(AllImports(m)) == {};
    assert {PATCH} + {} + {} + builtins == {PATCH} + builtins;
  }

  lemma ExtrasAreUnions(base: Module, patch: Module)
    ensures ExtraNames(base, patch) <= {UNION_COLUMNS, UNION_CANDIDATES}
  {
    ExtraLinesFacts(ComposeAll(AsSource(base), AsSource(patch)).imports);
  }

  lemma FirstLetters(h: Hook)
    ensures HookName(h)[0] != 'P' && HookName(h)[0] != '_'
    ensures PATCH[0] == 'P' && UNION_COLUMNS[0] == '_' && UNION_CANDIDATES[0] == '_'
  {}

  /** A hook's name is none of the names the merge adds, nor that of the class. */
  lemma HookNamedOtherwise(h: Hook)
    ensures HookName(h) != PATCH && HookName(h) != UNION_COLUMNS && HookName(h) != UNION_CANDIDATES
  {
    FirstLetters(h);
  }

  lemma HookUnknown(builtins: set<string>, base: Module, patch: Module, h: Hook)
    requires HookName(h) !in builtins && Provided(base) == {PATCH} && Provided(patch) == {PATCH}
    ensures HookName(h) !in KnownAfter(builtins, base, patch)
  {
    ExtrasAreUnions(base, patch);
    HookNamedOtherwise(h);
  }

  lemma NamesItself(h: Hook, arity: nat)
    ensures var m := Method(arity, {}, Global(HookName(h), [])); Sought(HookName(h), m) == {} && HookName(h) in Globals(m.body)
  {
    assert GlobalsAll([]) == {};
  }

  lemma OneMethod(builtins: set<string>, n: string, m: Method)
    requires Sought(n, m) <= builtins
    ensures var t := OnlyMembers(map[n := m]);
            Passes(builtins, t) && !HasStar(t) && NoAsync(t) && Helpers(t.top) == [] && Provided(t) == {PATCH}
  {
    BareModule(builtins, OnlyMembers(map[n := m]));
  }

  /** Two texts of one method each pass, and their merge fails: the base's version of the hook mentions the
      hook's name, which counts as bound in it only as long as it bears that name. */
  lemma SelfNamingHookFails(builtins: set<string>, h: Hook, m: Method)
    requires Composable(h) && HookName(h) !in builtins && m.masked == {} && m.body != Global(HookName(h), [])
    requires Sought(HookName(h), m) <= builtins
    ensures var base := OnlyMembers(map[HookName(h) := Method(m.arity, {}, Global(HookName(h), []))]);
            var patch := OnlyMembers(map[HookName(h) := m]);
            Passes(builtins, base) && Passes(builtins, patch) && MergeTexts(builtins, base, patch).Breaks?
  {
    var base := OnlyMembers(map[HookName(h) := Method(m.arity, {}, Global(HookName(h), []))]);
    var patch := OnlyMembers(map[HookName(h) := m]);
    NamesItself(h, m.arity);
    OneMethod(builtins, HookName(h), base.members[HookName(h)]);
    OneMethod(builtins, HookName(h), m);
    HookUnknown(builtins, base, patch, h);
    UnfrozenMergePassesExactly(builtins, base, patch);
    assert IsComposed(AsSource(base), AsSource(patch), h);
    assert SeeksOwn(AsSource(base), h, KnownAfter(builtins, base, patch));
  }

  function WithAsyncDef(g: string): Module {
    Module([Statement(AsyncDef(g), [], "")], map[HookName(BuildModel) := Method(2, {}, Global(g, []))], [], {}, [])
  }

  lemma AsyncDefProvides(builtins: set<string>, g: string)
    requires g != HookName(BuildModel)
    ensures var m := WithAsyncDef(g);
            && Passes(builtins, m) && !HasStar(m) && Helpers(m.top) == [] && AllImports(m) == []
            && Provided(m) == {PATCH} && g in AsyncNames(m.top)
            && Sought(HookName(BuildModel), m.members[HookName(BuildModel)]) == {g}
  {
    var m := WithAsyncDef(g);
    var s := m.top[0];
    assert m.top == [s] && m.top[..0] == [];
    assert TopImports(m.top) == TopImports(m.top[..0]) + ImportsOf(s) == [];
    assert Helpers(m.top) == PutAll(Helpers(m.top[..0]), HelperNames(s.kind), s) == [];
    assert g in BoundBy(s.kind) && s in m.top;
    assert KeptNames(m.top) == {} && ImportNames(AllImports(m)) == {};
    assert GlobalsAll([]) == {};
    PassesMeans(builtins, m);
  }

  lemma AsyncDefIsSought(builtins: set<string>, g: string)
    requires g !in builtins && g != PATCH && g != HookName(BuildModel) && g != UNION_COLUMNS && g != UNION_CANDIDATES
    ensures var base := WithAsyncDef(g);
            SeeksLost(MergedText(base, EMPTY_MODULE).members, LostNames(base, EMPTY_MODULE), KnownAfter(builtins, base, EMPTY_MODULE))
  {
    var base := WithAsyncDef(g);
    AsyncDefProvides(builtins, g);
    BareModule(builtins, EMPTY_MODULE);
    ExtrasAreUnions(base, EMPTY_MODULE);
    assert g !in KnownAfter(builtins, base, EMPTY_MODULE);
    OnlyBase(AsSource(base), AsSource(EMPTY_MODULE));
  }

  /** A text that passes can fail when merged with a patch that adds nothing: its async def is dropped. */
  lemma AsyncDefIsLost(builtins: set<string>, g: string)
    requires g !in builtins && g != PATCH && g != HookName(BuildModel) && g != UNION_COLUMNS && g != UNION_CANDIDATES
    ensures Passes(builtins, WithAsyncDef(g)) && MergeTexts(builtins, WithAsyncDef(g), EMPTY_MODULE).Breaks?
  {
    AsyncDefProvides(builtins, g);
    assert !Passes(builtins, MergedText(WithAsyncDef(g), EMPTY_MODULE)) by {
      AsyncMergeFails(builtins, g);
    }
  }

  lemma AsyncMergeFails(builtins: set<string>, g: string)
    requires g !in builtins && g != PATCH && g != HookName(BuildModel) && g != UNION_COLUMNS && g != UNION_CANDIDATES
    ensures !Passes(builtins, MergedText(WithAsyncDef(g), EMPTY_MODULE))
  {
    AsyncDefProvides(builtins, g);
    BareModule(builtins, EMPTY_MODULE);
    AsyncDefIsSought(builtins, g);
    MergePassesExactly(builtins, WithAsyncDef(g), EMPTY_MODULE);
  }

  /** A patch that adds nothing leaves the base's members. */
  lemma OnlyBase(base: Source, patch: Source)
    requires patch.members == map[]
    ensures CoreMembers(base, patch) == base.members
  {
    NothingComposed(|COMPOSE_ORDER|, base, patch);
    assert base.members + patch.members == base.members;
    assert SuppressedNames(patch) == {};
  }

  // ---- an assignment to several names

  lemma HelpersNext(top: seq<Statement>, s: Statement)
    ensures Helpers(top + [s]) == PutAll(Helpers(top), HelperNames(s.kind), s)
  {
    assert (top + [s])[..|top|] == top;
  }

  lemma PutOneOrTwo(d: seq<(string, Statement)>, a: string, b: string, s: Statement)
    ensures PutAll(d, [a], s) == Put(d, a, s)
    ensures PutAll(d, [a, b], s) == Put(Put(d, a, s), b, s)
  {
    assert [a][..0] == [] && [a, b][..1] == [a];
  }

  lemma PutBehind(x: (string, Statement), n: string, s: Statement)
    requires x.0 != n
    ensures Put([x], n, s) == [x, (n, s)]
  {
    assert [x][1..] == [];
  }

  lemma PutInFront(x: (string, Statement), y: (string, Statement), s: Statement)
    ensures Put([x, y], x.0, s) == [(x.0, s), y]
    ensures Put([x], x.0, s) == [(x.0, s)]
  {
    assert [x, y][1..] == [y] && [x][1..] == [];
  }

  /** A dict keeps a name in its first place, with its last statement. */
  lemma RefiledHelpers(a: string, b: string, both: Statement, last: Statement)
    requires a != b && both.kind == Assign([a, b]) && last.kind == Assign([a])
    ensures Helpers([last]) == [(a, last)]
    ensures Helpers([both, last]) == [(a, last), (b, both)]
    ensures Helpers([last, both]) == [(a, both), (b, both)]
  {
    HelpersNext([], both);
    HelpersNext([], last);
    HelpersNext([both], last);
    HelpersNext([last], both);
    assert [] + [both] == [both] && [] + [last] == [last] && [both] + [last] == [both, last] && [last] + [both] == [last, both];
    PutOneOrTwo([], a, b, both);
    PutOneOrTwo([], a, b, last);
    PutBehind((a, both), b, both);
    PutOneOrTwo([(a, both), (b, both)], a, b, last);
    PutInFront((a, both), (b, both), last);
    PutOneOrTwo([(a, last)], a, b, both);
    PutInFront((a, last), (a, last), both);
  }

  lemma UpdateByTwo(x: (string, Statement), y: (string, Statement))
    requires x.0 != y.0
    ensures Update([], [x, y]) == [x, y]
  {
    assert [x, y][..1] == [x] && [x][..0] == [];
    assert Update([], [x]) == Put(Update([], []), x.0, x.1);
    assert Update([], [x, y]) == Put(Update([], [x]), y.0, y.1);
    PutBehind(x, y.0, y.1);
  }

  lemma StatementsOfTwo(x: (string, Statement), y: (string, Statement))
    requires x.1 != y.1
    ensures StatementsOf([x, y]) == [x.1, y.1]
  {
    assert seq(2, i requires 0 <= i < 2 => [x, y][i].1) == [x.1, y.1];
    assert [x.1, y.1][..1] == [x.1] && [x.1][..0] == [];
    assert Dedup([x.1]) == [x.1];
  }

  lemma AddsNothing(top: seq<Statement>, s: Statement)
    requires s.kind.Assign? && s.inner == []
    ensures TopImports(top + [s]) == TopImports(top) && Compounds(top + [s]) == Compounds(top)
  {
    assert (top + [s])[..|top|] == top;
  }

  function Assignments(top: seq<Statement>): Module {
    EMPTY_MODULE.(top := top)
  }

  /** Merging assignments into nothing files them anew. */
  lemma MergedIntoNothing(m: Module)
    requires m == Assignments(m.top) && TopImports(m.top) == [] && Compounds(m.top) == []
    ensures MergedText(EMPTY_MODULE, m).top == StatementsOf(Update([], Helpers(m.top)))
    ensures MergedText(EMPTY_MODULE, m).members == map[]
  {
    NothingComposed(|COMPOSE_ORDER|, AsSource(EMPTY_MODULE), AsSource(m));
    assert AllImports(m) == [] && Extra(EMPTY_MODULE, m) == [];
    assert LinesWith(EMPTY_MODULE, m, []) == [];
    OnlyBase(AsSource(EMPTY_MODULE), AsSource(m));
  }

  lemma MergedRefiled(a: string, b: string, both: Statement, last: Statement)
    requires a != b && both.kind == Assign([a, b]) && last.kind == Assign([a]) && both.inner == [] == last.inner
    ensures var out := MergedText(EMPTY_MODULE, Assignments([both, last]));
            out.top == [last, both] && out.members == map[]
  {
    RefiledHelpers(a, b, both, last);
    AddsNothing([], both);
    AddsNothing([both], last);
    assert [] + [both] == [both] && [both] + [last] == [both, last];
    MergedIntoNothing(Assignments([both, last]));
    UpdateByTwo((a, last), (b, both));
    StatementsOfTwo((a, last), (b, both));
  }

  lemma NoMethodsPass(builtins: set<string>, m: Module)
    requires m.members == map[]
    ensures Passes(builtins, m)
  {}

  lemma FirstReplay(builtins: set<string>, m: Module)
    requires MergedText(EMPTY_MODULE, m).members == map[]
    ensures ReplayTexts(builtins, [m]) == Fine(MergedText(EMPTY_MODULE, m))
  {
    NoMethodsPass(builtins, MergedText(EMPTY_MODULE, m));
    assert [m][..0] == [];
    assert RealCollisions(AsMap(Helpers(EMPTY_MODULE.top)), AsMap(Helpers(m.top))) == {};
  }

  lemma ReplayNextText(builtins: set<string>, m: Module, next: Module, best: Module)
    requires ReplayTexts(builtins, [m]) == Fine(best)
    ensures ReplayTexts(builtins, [m, next]) == MergeTexts(builtins, best, next)
  {
    assert [m, next][..1] == [m];
  }

  /** A name filed under different statements. */
  lemma CollidesAt(builtins: set<string>, best: Module, next: Module, a: string, s: Statement, t: Statement)
    requires (a, s) in Helpers(best.top) && (a, t) in Helpers(next.top) && s != t
    ensures MergeTexts(builtins, best, next).Collides?
  {
    HelperIs(best.top, (a, s));
    HelperIs(next.top, (a, t));
    assert a in RealCollisions(AsMap(Helpers(best.top)), AsMap(Helpers(next.top)));
  }

  lemma SingleAgrees(m: Module, next: Module, a: string, t: Statement)
    requires (a, t) in Helpers(m.top) && Helpers(next.top) == [(a, t)]
    ensures HelpersAgree(m, next)
  {
    HelperIs(m.top, (a, t));
    HelperIs(next.top, (a, t));
    AsMapKeys(Helpers(next.top));
  }

  /** One name a statement is needed for histories. A replay of `a = b = ...; a = ...` leaves a with the first
      value, since its dict keeps a in front; and a next text that repeats the last assignment, and so agrees with
      the first text, collides with what the replay made of it. */
  lemma SharedAssignmentIsRefiled(builtins: set<string>, a: string, b: string, both: Statement, last: Statement)
    requires a != b && both.kind == Assign([a, b]) && last.kind == Assign([a]) && both.inner == [] == last.inner
    ensures var first, next := Assignments([both, last]), Assignments([last]);
            && Passes(builtins, first) && Passes(builtins, next) && HelpersAgree(first, next)
            && Helpers(first.top) == [(a, last), (b, both)]
            && ReplayTexts(builtins, [first]).Fine?
            && Helpers(ReplayTexts(builtins, [first]).text.top) == [(a, both), (b, both)]
            && ReplayTexts(builtins, [first, next]).Collides?
  {
    var first, next := Assignments([both, last]), Assignments([last]);
    var merged := MergedText(EMPTY_MODULE, first);
    RefiledHelpers(a, b, both, last);
    MergedRefiled(a, b, both, last);
    NoMethodsPass(builtins, first);
    NoMethodsPass(builtins, next);
    assert (a, last) == Helpers(first.top)[0] && (a, both) == Helpers(merged.top)[0] && (a, last) == Helpers(next.top)[0];
    SingleAgrees(first, next, a, last);
    FirstReplay(builtins, first);
    ReplayNextText(builtins, first, next, merged);
    CollidesAt(builtins, merged, next, a, both, last);
  }
}
