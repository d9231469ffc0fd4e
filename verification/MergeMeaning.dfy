/** The merge preserves meaning: the flat class behaves, hook by hook, like the layered pipeline. */
module MergeMeaning {
  import opened Names
  import opened Python
  import opened Harness
  import opened Materialize

  // ---- side conditions

  /** Every self reference is to a non-hook member of the same class. */
  ghost predicate Closed(members: map<string, Method>) {
    forall n, r :: n in members && r in Refs(members[n].body) ==> r in members && !IsHookName(r)
  }

  /** Module-level names used by src's members resolve alike in scope. */
  ghost predicate KeepsBindings(builtins: set<string>, src: Source, scope: Source) {
    forall n, g :: n in src.members && g in Globals(src.members[n].body) ==>
      Resolve(builtins, src, g) == Resolve(builtins, scope, g)
  }

  predicate NoShadow(src: Source) {
    UNION_COLUMNS !in src.helpers && UNION_CANDIDATES !in src.helpers
  }

  /** A non-hook member on both sides has the same text. */
  predicate ShareMembers(base: Source, patch: Source) {
    forall n :: n in base.members && n in patch.members && !IsHookName(n) ==> base.members[n] == patch.members[n]
  }

  /** What a merge needs from its two sources; all of it can be checked before merging. */
  ghost predicate Mergeable(builtins: set<string>, base: Source, patch: Source) {
    && Closed(base.members) && Closed(patch.members)
    && ShareMembers(base, patch)
    && KeepsBindings(builtins, base, ModuleScope(base, patch))
    && KeepsBindings(builtins, patch, ModuleScope(base, patch))
    && NoShadow(base) && NoShadow(patch)
  }

  /** base and patch both define h, with the same text, and patch does not override it: the merge keeps
      one copy where the layered pipeline runs both. */
  predicate Repeats(base: Source, patch: Source, h: Hook) {
    && Composable(h) && Defines(base, h) && Defines(patch, h)
    && base.members[HookName(h)] == patch.members[HookName(h)]
    && HookName(h) !in patch.overrides
  }

  // ---- the wrappers

  lemma {:induction false} VarsReferToNothing(ts: seq<Term>)
    requires forall i :: 0 <= i < |ts| ==> ts[i].Var?
    ensures RefsAll(ts) == {} && GlobalsAll(ts) == {}
  {
    if ts != [] {
      VarsReferToNothing(ts[1..]);
    }
  }

  lemma TwoRefs(x: Term, y: Term)
    ensures RefsAll([x, y]) == Refs(x) + Refs(y)
    ensures GlobalsAll([x, y]) == Globals(x) + Globals(y)
  {
    assert [x, y][1..] == [y] && [y][1..] == [];
    assert RefsAll([y]) == Refs(y) + RefsAll([y][1..]);
    assert GlobalsAll([y]) == Globals(y) + GlobalsAll([y][1..]);
  }

  lemma CallRefs(name: string, indices: seq<nat>)
    ensures Refs(SelfCall(name, Vars(indices))) == {name}
    ensures Globals(SelfCall(name, Vars(indices))) == {}
  {
    VarsReferToNothing(Vars(indices));
  }

  lemma WrapperRefs(h: Hook, prev: string, newer: string)
    requires Composable(h)
    ensures Refs(Wrapper(h, prev, newer).body) == {prev, newer}
    ensures Globals(Wrapper(h, prev, newer).body) == HelperImports(h).Keys
  {
    match h
    case Preprocess => ChainRefs(prev, [0, 1, 2, 3], newer, [4, 5, 2, 3]);
    case FeatureTransform => TwoUnionsRefs(prev, newer, UNION_COLUMNS);
    case PostprocessPredictions => ChainRefs(prev, [0, 1], newer, [2, 1]);
    case ParamCandidates => UnionOfCallsRefs(prev, newer, UNION_CANDIDATES);
  }

  lemma ChainRefs(prev: string, first: seq<nat>, newer: string, second: seq<nat>)
    ensures Refs(Unpack(SelfCall(prev, Vars(first)), SelfCall(newer, Vars(second)))) == {prev, newer}
    ensures Globals(Unpack(SelfCall(prev, Vars(first)), SelfCall(newer, Vars(second)))) == {}
    ensures Refs(Let(SelfCall(prev, Vars(first)), SelfCall(newer, Vars(second)))) == {prev, newer}
    ensures Globals(Let(SelfCall(prev, Vars(first)), SelfCall(newer, Vars(second)))) == {}
  {
    CallRefs(prev, first);
    CallRefs(newer, second);
  }

  lemma UnionOfCallsRefs(prev: string, newer: string, g: string)
    ensures Refs(Global(g, [SelfCall(prev, Vars([0])), SelfCall(newer, Vars([0]))])) == {prev, newer}
    ensures Globals(Global(g, [SelfCall(prev, Vars([0])), SelfCall(newer, Vars([0]))])) == {g}
  {
    CallRefs(prev, [0]);
    CallRefs(newer, [0]);
    TwoRefs(SelfCall(prev, Vars([0])), SelfCall(newer, Vars([0])));
  }

  lemma TwoUnionsRefs(prev: string, newer: string, g: string)
    ensures Refs(Unpack(SelfCall(prev, Vars([0, 1, 2, 3])), Unpack(SelfCall(newer, Vars([0, 1, 2, 3])),
                 Display([Global(g, [Var(4), Var(6)]), Global(g, [Var(5), Var(7)])])))) == {prev, newer}
    ensures Globals(Unpack(SelfCall(prev, Vars([0, 1, 2, 3])), Unpack(SelfCall(newer, Vars([0, 1, 2, 3])),
                    Display([Global(g, [Var(4), Var(6)]), Global(g, [Var(5), Var(7)])])))) == {g}
  {
    CallRefs(prev, [0, 1, 2, 3]);
    CallRefs(newer, [0, 1, 2, 3]);
    PairOfUnionsRefs(g);
  }

  lemma PairOfUnionsRefs(g: string)
    ensures Refs(Display([Global(g, [Var(4), Var(6)]), Global(g, [Var(5), Var(7)])])) == {}
    ensures Globals(Display([Global(g, [Var(4), Var(6)]), Global(g, [Var(5), Var(7)])])) == {g}
  {
    var a, b := Global(g, [Var(4), Var(6)]), Global(g, [Var(5), Var(7)]);
    VarsReferToNothing([Var(4), Var(6)]);
    VarsReferToNothing([Var(5), Var(7)]);
    TwoRefs(a, b);
  }

  /** The wrapper's imports are in scope. */
  ghost predicate HelpersInScope(builtins: set<string>, src: Source, h: Hook) {
    forall g :: g in HelperImports(h) ==> Resolve(builtins, src, g) == Imported(HelperImports(h)[g])
  }

  /** A wrapper does what PatchedPipeline does with the two versions. */
  lemma WrapperMeaning(w: World, out: Source, h: Hook, prev: string, newer: string, args: seq<Value>)
    requires Composable(h) && |args| == Arity(h)
    requires HookName(h) in out.members && out.members[HookName(h)] == Wrapper(h, prev, newer)
    requires prev in out.members && newer in out.members
    requires HelpersInScope(w.builtins, out, h)
    ensures Call(w, out, HookName(h), args) == Combine(w, h, Call(w, out, prev, args), out, newer, args)
  {
    match h
    case Preprocess =>
      var first, second := SelfCall(prev, Vars([0, 1, 2, 3])), SelfCall(newer, Vars([4, 5, 2, 3]));
      SelfCallVars(w, out, prev, Vars([0, 1, 2, 3]), args, args);
      RunUnpack(w, out, first, second, args);
      var o := Unpacked(Call(w, out, prev, args));
      if o.Return? {
        var p := Halves(o.value).value;
        SelfCallVars(w, out, newer, Vars([4, 5, 2, 3]), args + [p.0, p.1], [p.0, p.1, args[2], args[3]]);
      }
    case PostprocessPredictions =>
      var first, second := SelfCall(prev, Vars([0, 1])), SelfCall(newer, Vars([2, 1]));
      SelfCallVars(w, out, prev, Vars([0, 1]), args, args);
      RunLet(w, out, first, second, args);
      var o := Call(w, out, prev, args);
      if o.Return? {
        SelfCallVars(w, out, newer, Vars([2, 1]), args + [o.value], [o.value, args[1]]);
      }
    case FeatureTransform =>
      FeatureWrapperMeaning(w, out, prev, newer, args);
    case ParamCandidates =>
      var first, second := SelfCall(prev, Vars([0])), SelfCall(newer, Vars([0]));
      SelfCallVars(w, out, prev, Vars([0]), args, args);
      SelfCallVars(w, out, newer, Vars([0]), args, args);
      assert UNION_CANDIDATES in HelperImports(h);
      RunGlobal2(w, out, UNION_CANDIDATES, first, second, args);
  }

  lemma FeatureWrapperMeaning(w: World, out: Source, prev: string, newer: string, args: seq<Value>)
    requires |args| == 4
    requires HookName(FeatureTransform) in out.members
    requires out.members[HookName(FeatureTransform)] == Wrapper(FeatureTransform, prev, newer)
    requires prev in out.members && newer in out.members
    requires HelpersInScope(w.builtins, out, FeatureTransform)
    ensures Call(w, out, HookName(FeatureTransform), args) ==
            Combine(w, FeatureTransform, Call(w, out, prev, args), out, newer, args)
  {
    var first, second := SelfCall(prev, Vars([0, 1, 2, 3])), SelfCall(newer, Vars([0, 1, 2, 3]));
    var tr, va := Global(UNION_COLUMNS, [Var(4), Var(6)]), Global(UNION_COLUMNS, [Var(5), Var(7)]);
    var inner := Unpack(second, Display([tr, va]));
    SelfCallVars(w, out, prev, Vars([0, 1, 2, 3]), args, args);
    RunUnpack(w, out, first, inner, args);
    var o := Unpacked(Call(w, out, prev, args));
    if o.Return? {
      var p := Halves(o.value).value;
      var env := args + [p.0, p.1];
      SelfCallVars(w, out, newer, Vars([0, 1, 2, 3]), env, args);
      RunUnpack(w, out, second, Display([tr, va]), env);
      var u := Unpacked(Call(w, out, newer, args));
      if u.Return? {
        UnionDisplay(w, out, args, p, Halves(u.value).value);
      }
    }
  }

  lemma UnionDisplay(w: World, out: Source, args: seq<Value>, p: (Value, Value), q: (Value, Value))
    requires |args| == 4
    requires HelpersInScope(w.builtins, out, FeatureTransform)
    ensures Run(w, out, Display([Global(UNION_COLUMNS, [Var(4), Var(6)]), Global(UNION_COLUMNS, [Var(5), Var(7)])]),
                args + [p.0, p.1] + [q.0, q.1]) == UnionPairs(p, q)
  {
    var env := args + [p.0, p.1] + [q.0, q.1];
    assert UNION_COLUMNS in HelperImports(FeatureTransform);
    var tr, va := Global(UNION_COLUMNS, [Var(4), Var(6)]), Global(UNION_COLUMNS, [Var(5), Var(7)]);
    RunVar(w, out, 4, env); RunVar(w, out, 5, env); RunVar(w, out, 6, env); RunVar(w, out, 7, env);
    RunGlobal2(w, out, UNION_COLUMNS, Var(4), Var(6), env);
    RunGlobal2(w, out, UNION_COLUMNS, Var(5), Var(7), env);
    RunDisplay2(w, out, tr, va, env);
  }

  // ---- what composition leaves where

  /** h's two versions sit under two fresh non-hook names, the base's under one that begins with _h_prev and the
      patch's under one that begins with _h_new, and its wrapper under the hook's name. */
  ghost predicate ComposedIn(members: map<string, Method>, base: Source, patch: Source, h: Hook)
    requires IsComposed(base, patch, h)
  {
    exists prev, newer :: ComposedAs(members, base, patch, h, prev, newer)
  }

  predicate Fresh(base: Source, patch: Source, n: string) {
    n !in base.members && n !in patch.members
  }

  ghost predicate ComposedAs(members: map<string, Method>, base: Source, patch: Source, h: Hook, prev: string, newer: string)
    requires IsComposed(base, patch, h)
  {
    && PrevStem(h) <= prev && NewStem(h) <= newer
    && !IsHookName(prev) && !IsHookName(newer)
    && Fresh(base, patch, prev) && Fresh(base, patch, newer)
    && prev in members && members[prev] == base.members[HookName(h)]
    && newer in members && members[newer] == patch.members[HookName(h)]
    && HookName(h) in members && members[HookName(h)] == Wrapper(h, prev, newer)
  }

  predicate SameAt(a: map<string, Method>, b: map<string, Method>, n: string) {
    (n in a <==> n in b) && (n in a ==> a[n] == b[n])
  }

  ghost predicate Laid(k: nat, base: Source, patch: Source, st: Progress)
    requires k <= |COMPOSE_ORDER|
  {
    var plain := base.members + patch.members;
    && plain.Keys <= st.members.Keys <= st.existing
    && (forall n :: n in plain && !IsHookName(n) ==> SameAt(st.members, plain, n))
    && (forall h :: IsComposed(base, patch, h) && h in COMPOSE_ORDER[..k] ==> ComposedIn(st.members, base, patch, h))
    && (forall h :: IsComposed(base, patch, h) && h in COMPOSE_ORDER[..k] ==>
          forall g :: g in HelperImports(h) ==> g in st.imports)
    && (forall h :: !(IsComposed(base, patch, h) && h in COMPOSE_ORDER[..k]) ==> SameAt(st.members, plain, HookName(h)))
    && (forall g :: g in st.imports ==>
          (g == UNION_COLUMNS && st.imports[g] == UNION_COLUMNS_PATH) ||
          (g == UNION_CANDIDATES && st.imports[g] == UNION_CANDIDATES_PATH))
  }

  lemma ComposeKeeps(h: Hook, base: Source, patch: Source, st: Progress, n: string)
    requires IsComposed(base, patch, h)
    requires n in st.existing && n != HookName(h)
    ensures SameAt(Compose(h, base, patch, st).members, st.members, n)
  {}

  lemma ComposeLays(h: Hook, base: Source, patch: Source, st: Progress)
    requires IsComposed(base, patch, h)
    requires HookName(h) in st.members && st.members.Keys <= st.existing
    requires (base.members + patch.members).Keys <= st.existing
    ensures ComposedIn(Compose(h, base, patch, st).members, base, patch, h)
  {
    var prev := UniqueName(PrevStem(h), st.existing);
    var newer := UniqueName(NewStem(h), st.existing + {prev});
    assert prev[0] == PrevStem(h)[0] == '_' && newer[0] == NewStem(h)[0] == '_';
    UnderscoreIsNoHook(prev);
    UnderscoreIsNoHook(newer);
    HookNameIsHookName(h);
    assert ComposedAs(Compose(h, base, patch, st).members, base, patch, h, prev, newer);
  }

  lemma OthersStayComposed(h: Hook, k: Hook, base: Source, patch: Source, st: Progress)
    requires IsComposed(base, patch, h) && IsComposed(base, patch, k) && h != k
    requires st.members.Keys <= st.existing
    requires ComposedIn(st.members, base, patch, k)
    ensures ComposedIn(Compose(h, base, patch, st).members, base, patch, k)
  {
    var prev, newer :| ComposedAs(st.members, base, patch, k, prev, newer);
    HookNameIsHookName(h);
    if HookName(h) == HookName(k) { HookNameInjective(h, k); }
    ComposeKeeps(h, base, patch, st, prev);
    ComposeKeeps(h, base, patch, st, newer);
    ComposeKeeps(h, base, patch, st, HookName(k));
    assert ComposedAs(Compose(h, base, patch, st).members, base, patch, k, prev, newer);
  }

  lemma {:induction false} ComposeFirstLaid(k: nat, base: Source, patch: Source)
    requires k <= |COMPOSE_ORDER|
    ensures Laid(k, base, patch, ComposeFirst(k, base, patch))
  {
    if k == 0 {
      LaidStart(base, patch);
    } else {
      ComposeFirstLaid(k - 1, base, patch);
      LaidNext(k - 1, base, patch, ComposeFirst(k - 1, base, patch));
    }
  }

  lemma LaidNext(k: nat, base: Source, patch: Source, st: Progress)
    requires k < |COMPOSE_ORDER| && Laid(k, base, patch, st)
    ensures var h := COMPOSE_ORDER[k];
            Laid(k + 1, base, patch, if IsComposed(base, patch, h) then Compose(h, base, patch, st) else st)
  {
    if IsComposed(base, patch, COMPOSE_ORDER[k]) {
      LaidStep(k, base, patch, st);
    } else {
      LaidSkip(k, base, patch, st);
    }
  }

  lemma LaidStart(base: Source, patch: Source)
    ensures Laid(0, base, patch, Start(base, patch))
  {
    var plain := base.members + patch.members;
    assert Start(base, patch).members == plain;
    assert forall h :: h !in COMPOSE_ORDER[..0];
  }

  lemma LaidSkip(k: nat, base: Source, patch: Source, st: Progress)
    requires k < |COMPOSE_ORDER|
    requires Laid(k, base, patch, st)
    requires !IsComposed(base, patch, COMPOSE_ORDER[k])
    ensures Laid(k + 1, base, patch, st)
  {
    assert COMPOSE_ORDER[..k + 1] == COMPOSE_ORDER[..k] + [COMPOSE_ORDER[k]];
    assert forall h :: h in COMPOSE_ORDER[..k + 1] <==> h in COMPOSE_ORDER[..k] || h == COMPOSE_ORDER[k];
  }

  lemma LaidStep(k: nat, base: Source, patch: Source, st: Progress)
    requires k < |COMPOSE_ORDER|
    requires Laid(k, base, patch, st)
    requires IsComposed(base, patch, COMPOSE_ORDER[k])
    ensures Laid(k + 1, base, patch, Compose(COMPOSE_ORDER[k], base, patch, st))
  {
    var h := COMPOSE_ORDER[k];
    var plain := base.members + patch.members;
    var nx := Compose(h, base, patch, st);
    assert COMPOSE_ORDER[..k + 1] == COMPOSE_ORDER[..k] + [h];
    HookNameIsHookName(h);
    assert HookName(h) in plain;
    ComposeLays(h, base, patch, st);
    ComposeImports(k, base, patch, st);
    forall n | n in plain && !IsHookName(n) ensures SameAt(nx.members, plain, n) {
      ComposeKeeps(h, base, patch, st, n);
    }
    forall j | IsComposed(base, patch, j) && j in COMPOSE_ORDER[..k + 1] ensures ComposedIn(nx.members, base, patch, j) {
      if j != h { OthersStayComposed(h, j, base, patch, st); }
    }
    OtherHooksSame(k, base, patch, st);
  }

  lemma OtherHooksSame(k: nat, base: Source, patch: Source, st: Progress)
    requires k < |COMPOSE_ORDER|
    requires Laid(k, base, patch, st)
    requires IsComposed(base, patch, COMPOSE_ORDER[k])
    ensures forall j :: !(IsComposed(base, patch, j) && j in COMPOSE_ORDER[..k + 1]) ==>
              SameAt(Compose(COMPOSE_ORDER[k], base, patch, st).members, base.members + patch.members, HookName(j))
  {
    assert COMPOSE_ORDER[..k + 1] == COMPOSE_ORDER[..k] + [COMPOSE_ORDER[k]];
    forall j | !(IsComposed(base, patch, j) && j in COMPOSE_ORDER[..k + 1])
      ensures SameAt(Compose(COMPOSE_ORDER[k], base, patch, st).members, base.members + patch.members, HookName(j))
    {
      OtherHookSame(COMPOSE_ORDER[k], j, base, patch, st);
    }
  }

  lemma ComposeImports(k: nat, base: Source, patch: Source, st: Progress)
    requires k < |COMPOSE_ORDER| && Laid(k, base, patch, st)
    requires IsComposed(base, patch, COMPOSE_ORDER[k])
    ensures var nx := Compose(COMPOSE_ORDER[k], base, patch, st);
            && (forall h, g :: IsComposed(base, patch, h) && h in COMPOSE_ORDER[..k] + [COMPOSE_ORDER[k]] && g in HelperImports(h) ==>
                  g in nx.imports)
            && (forall g :: g in nx.imports ==>
                  (g == UNION_COLUMNS && nx.imports[g] == UNION_COLUMNS_PATH) ||
                  (g == UNION_CANDIDATES && nx.imports[g] == UNION_CANDIDATES_PATH))
  {}

  lemma OtherHookSame(h: Hook, j: Hook, base: Source, patch: Source, st: Progress)
    requires IsComposed(base, patch, h) && j != h
    ensures SameAt(Compose(h, base, patch, st).members, st.members, HookName(j))
  {
    if HookName(j) == HookName(h) { HookNameInjective(j, h); }
    FreshIsNoHook(h, st, j);
  }

  lemma FreshIsNoHook(h: Hook, st: Progress, j: Hook)
    ensures UniqueName(PrevStem(h), st.existing) != HookName(j)
    ensures UniqueName(NewStem(h), st.existing + {UniqueName(PrevStem(h), st.existing)}) != HookName(j)
  {
    var prev := UniqueName(PrevStem(h), st.existing);
    var newer := UniqueName(NewStem(h), st.existing + {prev});
    assert prev[0] == PrevStem(h)[0] == '_' && newer[0] == NewStem(h)[0] == '_';
    HookNameIsHookName(j);
  }

  /** Composition keeps every self reference inside the class. */
  lemma {:induction false} ComposeFirstClosed(k: nat, base: Source, patch: Source)
    requires k <= |COMPOSE_ORDER|
    requires Closed(base.members) && Closed(patch.members)
    ensures Closed(ComposeFirst(k, base, patch).members)
  {
    if k > 0 {
      ComposeFirstClosed(k - 1, base, patch);
      ComposeFirstLaid(k - 1, base, patch);
      var h, st := COMPOSE_ORDER[k - 1], ComposeFirst(k - 1, base, patch);
      assert base.members.Keys + patch.members.Keys <= st.members.Keys;
      if IsComposed(base, patch, h) {
        ComposeClosed(h, base, patch, st);
      }
    }
  }

  lemma PlacedClosed(members: map<string, Method>, hook: string, prev: string, newer: string, kept: Method, added: Method, wrapper: Method)
    requires Closed(members) && !IsHookName(prev) && !IsHookName(newer)
    requires forall r :: r in Refs(kept.body) + Refs(added.body) ==> r in members && !IsHookName(r)
    requires Refs(wrapper.body) == {prev, newer}
    ensures Closed(members[prev := kept][newer := added][hook := wrapper])
  {}

  lemma ComposeClosed(h: Hook, base: Source, patch: Source, st: Progress)
    requires IsComposed(base, patch, h)
    requires Closed(base.members) && Closed(patch.members) && Closed(st.members)
    requires base.members.Keys + patch.members.Keys <= st.members.Keys
    ensures Closed(Compose(h, base, patch, st).members)
  {
    var prev := UniqueName(PrevStem(h), st.existing);
    var newer := UniqueName(NewStem(h), st.existing + {prev});
    assert prev[0] == PrevStem(h)[0] == '_' && newer[0] == NewStem(h)[0] == '_';
    UnderscoreIsNoHook(prev);
    UnderscoreIsNoHook(newer);
    WrapperRefs(h, prev, newer);
    PlacedClosed(st.members, HookName(h), prev, newer, base.members[HookName(h)], patch.members[HookName(h)], Wrapper(h, prev, newer));
  }

  lemma {:induction false} NothingComposed(k: nat, base: Source, patch: Source)
    requires k <= |COMPOSE_ORDER| && forall h :: !IsComposed(base, patch, h)
    ensures ComposeFirst(k, base, patch) == Start(base, patch)
  {
    if k > 0 { NothingComposed(k - 1, base, patch); }
  }

  // ---- the merged class before freezing

  lemma SuppressedAreHooks(patch: Source)
    ensures forall n :: n in SuppressedNames(patch) ==> IsHookName(n)
    ensures forall h :: HookName(h) in SuppressedNames(patch) <==> !Defines(patch, h) && Suppresses(patch, h)
  {
    forall h ensures HookName(h) in SuppressedNames(patch) <==> !Defines(patch, h) && Suppresses(patch, h) {
      if HookName(h) == HookName(EnsembleSpec) { HookNameInjective(h, EnsembleSpec); }
      if HookName(h) == HookName(ModelSpec) { HookNameInjective(h, ModelSpec); }
      assert BuildModel in Suppressors(EnsembleSpec) && ModelSpec in Suppressors(EnsembleSpec);
      assert BuildModel in Suppressors(ModelSpec) && EnsembleSpec in Suppressors(ModelSpec);
    }
  }

  /** Every non-hook member of either source is in the merged class unchanged: no wrapper or renamed
      layer of an earlier round is overwritten or redirected. */
  lemma LayersKept(base: Source, patch: Source)
    requires Closed(base.members) && Closed(patch.members) && ShareMembers(base, patch)
    ensures forall n :: n in base.members && !IsHookName(n) ==>
              n in CoreMembers(base, patch) && CoreMembers(base, patch)[n] == base.members[n]
    ensures forall n :: n in patch.members && !IsHookName(n) ==>
              n in CoreMembers(base, patch) && CoreMembers(base, patch)[n] == patch.members[n]
    ensures Closed(CoreMembers(base, patch))
  {
    ComposeFirstLaid(|COMPOSE_ORDER|, base, patch);
    ComposeFirstClosed(|COMPOSE_ORDER|, base, patch);
    SuppressedAreHooks(patch);
    var all := ComposeAll(base, patch).members;
    forall n | n in base.members && !IsHookName(n)
      ensures n in CoreMembers(base, patch) && CoreMembers(base, patch)[n] == base.members[n]
    {
      assert SameAt(all, base.members + patch.members, n);
    }
    forall n | n in patch.members && !IsHookName(n)
      ensures n in CoreMembers(base, patch) && CoreMembers(base, patch)[n] == patch.members[n]
    {
      assert SameAt(all, base.members + patch.members, n);
    }
  }

  ghost function NonHooks(members: map<string, Method>): set<string> {
    set n | n in members.Keys && !IsHookName(n)
  }

  /** A source's own scope: its non-hook members, in any class that keeps them and its bindings. */
  lemma ScopeMoves(w: World, src: Source, out: Source)
    requires Closed(src.members) && KeepsBindings(w.builtins, src, out)
    requires forall n :: n in NonHooks(src.members) ==> n in out.members && out.members[n] == src.members[n]
    ensures SameScope(w, src, out, NonHooks(src.members))
    ensures forall n :: n in src.members ==>
              Portable(w, src, out, NonHooks(src.members), Refs(src.members[n].body), Globals(src.members[n].body))
  {}

  /** The merged class carries each source's own scope. */
  lemma ScopesMove(w: World, base: Source, patch: Source)
    requires Mergeable(w.builtins, base, patch)
    ensures SameScope(w, base, CoreSource(base, patch), NonHooks(base.members))
    ensures SameScope(w, patch, CoreSource(base, patch), NonHooks(patch.members))
    ensures forall n :: n in base.members ==>
              Portable(w, base, CoreSource(base, patch), NonHooks(base.members),
                       Refs(base.members[n].body), Globals(base.members[n].body))
    ensures forall n :: n in patch.members ==>
              Portable(w, patch, CoreSource(base, patch), NonHooks(patch.members),
                       Refs(patch.members[n].body), Globals(patch.members[n].body))
  {
    LayersKept(base, patch);
    var out := CoreSource(base, patch);
    BindingsMove(w.builtins, base, ModuleScope(base, patch), out);
    BindingsMove(w.builtins, patch, ModuleScope(base, patch), out);
    ScopeMoves(w, base, out);
    ScopeMoves(w, patch, out);
  }

  lemma BindingsMove(builtins: set<string>, src: Source, scope: Source, out: Source)
    requires KeepsBindings(builtins, src, scope)
    requires out.helpers == scope.helpers && out.imports == scope.imports
    ensures KeepsBindings(builtins, src, out)
  {
    assert forall g :: Resolve(builtins, out, g) == Resolve(builtins, scope, g);
  }

  lemma BaseMethodMoves(w: World, base: Source, patch: Source, n: string, m: string, vs: seq<Value>)
    requires Mergeable(w.builtins, base, patch)
    requires n in base.members && m in CoreMembers(base, patch) && CoreMembers(base, patch)[m] == base.members[n]
    ensures Call(w, CoreSource(base, patch), m, vs) == Call(w, base, n, vs)
  {
    ScopesMove(w, base, patch);
    CallAgrees(w, base, n, CoreSource(base, patch), m, NonHooks(base.members), vs);
  }

  lemma PatchMethodMoves(w: World, base: Source, patch: Source, n: string, m: string, vs: seq<Value>)
    requires Mergeable(w.builtins, base, patch)
    requires n in patch.members && m in CoreMembers(base, patch) && CoreMembers(base, patch)[m] == patch.members[n]
    ensures Call(w, CoreSource(base, patch), m, vs) == Call(w, patch, n, vs)
  {
    ScopesMove(w, base, patch);
    CallAgrees(w, patch, n, CoreSource(base, patch), m, NonHooks(patch.members), vs);
  }

  /** What the merged class holds under each hook's name. */
  lemma HookPlaces(base: Source, patch: Source, h: Hook)
    ensures IsComposed(base, patch, h) ==> ComposedIn(CoreMembers(base, patch), base, patch, h)
    ensures !IsComposed(base, patch, h) && Defines(patch, h) ==>
              HookName(h) in CoreMembers(base, patch) &&
              CoreMembers(base, patch)[HookName(h)] == patch.members[HookName(h)]
    ensures !Defines(patch, h) && Defines(base, h) && !Suppresses(patch, h) ==>
              HookName(h) in CoreMembers(base, patch) &&
              CoreMembers(base, patch)[HookName(h)] == base.members[HookName(h)]
    ensures HookName(h) in CoreMembers(base, patch) <==>
              Defines(patch, h) || (Defines(base, h) && !Suppresses(patch, h))
  {
    ComposeFirstLaid(|COMPOSE_ORDER|, base, patch);
    SuppressedAreHooks(patch);
    var all := ComposeAll(base, patch).members;
    assert COMPOSE_ORDER[..|COMPOSE_ORDER|] == COMPOSE_ORDER;
    if IsComposed(base, patch, h) {
      assert h in COMPOSE_ORDER by { InOrder(h); }
      var prev, newer :| ComposedAs(all, base, patch, h, prev, newer);
      assert ComposedAs(CoreMembers(base, patch), base, patch, h, prev, newer);
    } else {
      assert SameAt(all, base.members + patch.members, HookName(h));
    }
  }

  lemma InOrder(h: Hook)
    requires Composable(h)
    ensures h in COMPOSE_ORDER
  {
    assert COMPOSE_ORDER[0] == FeatureTransform && COMPOSE_ORDER[1] == ParamCandidates;
    assert COMPOSE_ORDER[2] == PostprocessPredictions && COMPOSE_ORDER[3] == Preprocess;
  }

  /** What a module-level name means in the merged class: the patch's helper or else the base's, whatever is imported
      under the name; then, the two combining helpers apart, the patch's import or else the base's. */
  lemma MergedNamesResolve(builtins: set<string>, base: Source, patch: Source, g: string)
    ensures g in patch.helpers ==> Resolve(builtins, CoreSource(base, patch), g) == HelperText(patch.helpers[g])
    ensures g !in patch.helpers && g in base.helpers ==> Resolve(builtins, CoreSource(base, patch), g) == HelperText(base.helpers[g])
    ensures g !in patch.helpers && g !in base.helpers && g != UNION_COLUMNS && g != UNION_CANDIDATES ==>
              Resolve(builtins, CoreSource(base, patch), g) ==
              if g in patch.imports then Imported(patch.imports[g]) else if g in base.imports then Imported(base.imports[g])
              else if g in builtins then Builtin(g) else Undefined(g)
  {
    ComposeFirstLaid(|COMPOSE_ORDER|, base, patch);
  }

  /** The combining helper of a composed hook, unless a helper of either text has its name. */
  lemma UnionResolves(builtins: set<string>, base: Source, patch: Source, h: Hook, g: string)
    requires IsComposed(base, patch, h) && g in HelperImports(h) && g !in patch.helpers && g !in base.helpers
    ensures Resolve(builtins, CoreSource(base, patch), g) == Imported(HelperImports(h)[g])
  {
    ComposeFirstLaid(|COMPOSE_ORDER|, base, patch);
    InOrder(h);
    assert COMPOSE_ORDER[..|COMPOSE_ORDER|] == COMPOSE_ORDER;
    assert g in ComposeAll(base, patch).imports;
    assert UNION_COLUMNS[7] != UNION_CANDIDATES[7];
  }

  /** Fresh names are new: they name no method and no helper of either text. */
  lemma {:induction false} FreshNamesAreNew(k: nat, base: Source, patch: Source)
    requires k <= |COMPOSE_ORDER|
    ensures base.helpers.Keys + patch.helpers.Keys <= ComposeFirst(k, base, patch).existing
    ensures forall n :: n in ComposeFirst(k, base, patch).members && Fresh(base, patch, n) ==> n !in base.helpers && n !in patch.helpers
  {
    if k > 0 {
      FreshNamesAreNew(k - 1, base, patch);
    }
  }

  lemma MergedMethodsShadowNoHelper(base: Source, patch: Source, n: string)
    requires n in CoreMembers(base, patch)
    ensures n in base.members || n in patch.members || (n !in base.helpers && n !in patch.helpers)
  {
    FreshNamesAreNew(|COMPOSE_ORDER|, base, patch);
  }

  lemma HelpersPresent(builtins: set<string>, base: Source, patch: Source, h: Hook)
    requires NoShadow(base) && NoShadow(patch)
    requires IsComposed(base, patch, h)
    ensures HelpersInScope(builtins, CoreSource(base, patch), h)
  {
    forall g | g in HelperImports(h)
      ensures Resolve(builtins, CoreSource(base, patch), g) == Imported(HelperImports(h)[g])
    {
      UnionResolves(builtins, base, patch, h, g);
    }
  }

  // ---- two layers

  ghost function Layered(base: Source, patch: Source): Pipeline {
    Patched(Patched(Base, base), patch)
  }

  ghost function Flat(src: Source): Pipeline {
    Patched(Base, src)
  }

  lemma ComposedHookAgrees(w: World, base: Source, patch: Source, h: Hook, args: seq<Value>)
    requires Mergeable(w.builtins, base, patch) && IsComposed(base, patch, h) && |args| == Arity(h)
    ensures RunHook(w, Layered(base, patch), h, args) == RunHook(w, Flat(CoreSource(base, patch)), h, args)
  {
    HookPlaces(base, patch, h);
    var out := CoreSource(base, patch);
    var prev, newer :| ComposedAs(out.members, base, patch, h, prev, newer);
    HelpersPresent(w.builtins, base, patch, h);
    WrapperMeaning(w, out, h, prev, newer, args);
    BaseMethodMoves(w, base, patch, HookName(h), prev, args);
    var o := Call(w, base, HookName(h), args);
    forall vs ensures Call(w, out, newer, vs) == Call(w, patch, HookName(h), vs) {
      PatchMethodMoves(w, base, patch, HookName(h), newer, vs);
    }
    SameCombine(w, h, o, out, newer, patch, HookName(h), args);
    assert RunHook(w, Patched(Base, base), h, args) == o;
  }

  /** Combine depends on the patch's hook only through what calling it does. */
  lemma SameCombine(w: World, h: Hook, o: Outcome, a: Source, an: string, b: Source, bn: string, args: seq<Value>)
    requires Composable(h) && |args| == Arity(h)
    requires forall vs :: Call(w, a, an, vs) == Call(w, b, bn, vs)
    ensures Combine(w, h, o, a, an, args) == Combine(w, h, o, b, bn, args)
  {}

  /** One hook, one merge: same outcome, unless the two sources repeat the hook's text. */
  lemma HookAgrees(w: World, base: Source, patch: Source, h: Hook, args: seq<Value>)
    requires Mergeable(w.builtins, base, patch) && |args| == Arity(h)
    requires !Repeats(base, patch, h)
    ensures RunHook(w, Layered(base, patch), h, args) == RunHook(w, Flat(CoreSource(base, patch)), h, args)
  {
    HookPlaces(base, patch, h);
    if IsComposed(base, patch, h) {
      ComposedHookAgrees(w, base, patch, h, args);
    } else if Defines(patch, h) {
      PatchMethodMoves(w, base, patch, HookName(h), HookName(h), args);
    } else if Suppresses(patch, h) {
      assert RunHook(w, Flat(CoreSource(base, patch)), h, args) == Return(NoneValue) by {
        NoneWhenAbsent(w, CoreSource(base, patch), h, args);
      }
    } else if Defines(base, h) {
      BaseMethodMoves(w, base, patch, HookName(h), HookName(h), args);
    } else {
      AbsentAgrees(w, base, patch, h, args);
    }
  }

  lemma NoneWhenAbsent(w: World, out: Source, h: Hook, args: seq<Value>)
    requires |args| == Arity(h) && !Defines(out, h) && (h == EnsembleSpec || h == ModelSpec)
    ensures RunHook(w, Flat(out), h, args) == Return(NoneValue)
  {}

  lemma AbsentAgrees(w: World, base: Source, patch: Source, h: Hook, args: seq<Value>)
    requires |args| == Arity(h)
    requires !Defines(base, h) && !Defines(patch, h) && HookName(h) !in CoreMembers(base, patch)
    ensures RunHook(w, Layered(base, patch), h, args) == RunHook(w, Flat(CoreSource(base, patch)), h, args)
  {
    var inner := Patched(Base, base);
    if h == EnsembleSpec || h == ModelSpec {
      NoneWhenAbsent(w, CoreSource(base, patch), h, args);
      NoneWhenAbsent(w, base, h, args);
      assert RunHook(w, inner, h, args) == Return(NoneValue);
    } else {
      assert Suppressors(h) == {};
      assert RunHook(w, inner, h, args) == BaseHook(w, h, args);
    }
  }

  lemma ChainDefinesAgree(base: Source, patch: Source, h: Hook)
    requires Composable(h) || h == BuildModel
    ensures ChainDefines(Layered(base, patch), h) == ChainDefines(Flat(CoreSource(base, patch)), h)
  {
    HookPlaces(base, patch, h);
    assert Suppressors(h) == {};
  }
}
