/** Conditions on the promoted patches alone, checkable text by text, under which every replay succeeds
    and means the nested pipeline. */
module Independent {
  import opened Names
  import opened Python
  import opened Harness
  import opened Materialize
  import opened MergeMeaning
  import opened Freeze
  import opened RepeatedHooks
  import opened ReplayMeaning

  predicate Binds(src: Source, g: string) {
    g in src.helpers || g in src.imports
  }

  ghost predicate Mentions(src: Source, g: string) {
    exists n :: n in src.members && g in Globals(src.members[n].body)
  }

  /** The method of hook h looks for its own bare name, and nothing but the check's leniency provides it. */
  predicate SeeksItself(builtins: set<string>, src: Source, h: Hook) {
    && Defines(src, h)
    && HookName(h) in Globals(src.members[HookName(h)].body) - src.members[HookName(h)].masked
    && Resolve(builtins, src, HookName(h)).Undefined?
  }

  /** A patch that passes the undefined-name check on its own, calls only its own non-hook members
      through self, leaves the generated names and the combining helpers alone, and has no composable hook that
      seeks itself. */
  ghost predicate SelfContained(builtins: set<string>, src: Source) {
    && Closed(src.members)
    && (forall n :: n in src.members && !IsHookName(n) ==> !Generated(n))
    && !Binds(src, UNION_COLUMNS) && !Binds(src, UNION_CANDIDATES)
    && !Mentions(src, UNION_COLUMNS) && !Mentions(src, UNION_CANDIDATES)
    && UndefinedMembers(builtins, src) == {}
    && (forall h :: Composable(h) ==> !SeeksItself(builtins, src, h))
  }

  ghost predicate UsesAlike(builtins: set<string>, a: Source, b: Source) {
    forall n, g :: n in a.members && g in Globals(a.members[n].body) && Binds(b, g) ==>
      Resolve(builtins, a, g) == Resolve(builtins, b, g)
  }

  /** An earlier patch a and a later one b agree wherever they meet. */
  ghost predicate Compatible(builtins: set<string>, a: Source, b: Source) {
    && RealCollisions(a.helpers, b.helpers) == {}
    && ShareMembers(a, b)
    && UsesAlike(builtins, a, b) && UsesAlike(builtins, b, a)
  }

  ghost predicate AllIndependent(builtins: set<string>, codes: seq<Source>) {
    && UNION_COLUMNS !in builtins && UNION_CANDIDATES !in builtins
    && (forall i :: 0 <= i < |codes| ==> SelfContained(builtins, codes[i]))
    && (forall i, j :: 0 <= i < j < |codes| ==> Compatible(builtins, codes[i], codes[j]))
  }

  /** codes[i] is the last of the history to define h. */
  predicate LastDefines(codes: seq<Source>, i: int, h: Hook) {
    0 <= i < |codes| && Defines(codes[i], h) && forall k :: i < k < |codes| ==> !Defines(codes[k], h)
  }

  /** Where a patch repeats the text of the last definition of a hook before it, running it twice does no harm. */
  ghost predicate HarmlessRepeats(w: World, codes: seq<Source>) {
    forall i, j, h :: 0 <= j < |codes| && LastDefines(codes[..j], i, h) && Repeats(codes[i], codes[j], h) ==>
      Harmless(w, codes[j], h)
  }

  // ---- where a member of a merged class comes from

  ghost predicate FromCode(codes: seq<Source>, n: string, m: Method) {
    exists i :: 0 <= i < |codes| && n in codes[i].members && codes[i].members[n] == m
  }

  ghost predicate IsWrapper(imports: set<string>, m: Method) {
    exists h, prev, newer :: Composable(h) && m == Wrapper(h, prev, newer) && Generated(prev) && HelperImports(h).Keys <= imports
  }

  ghost predicate IsFrozen(m: Method) {
    exists params :: m == FrozenMethod(params)
  }

  ghost predicate Known(codes: seq<Source>, imports: set<string>, n: string, m: Method) {
    || FromCode(codes, n, m)
    || (Generated(n) && exists h :: Composable(h) && FromCode(codes, HookName(h), m))
    || ((Generated(n) || IsHookName(n)) && IsWrapper(imports, m))
    || ((Generated(n) || n == HookName(ParamCandidates)) && IsFrozen(m))
  }

  ghost predicate AllKnown(codes: seq<Source>, imports: set<string>, members: map<string, Method>) {
    forall n :: n in members ==> Known(codes, imports, n, members[n])
  }

  /** A hook's method is a wrapper, a frozen list, or the text of its last definition. */
  ghost predicate TopsKept(codes: seq<Source>, src: Source) {
    forall h :: Composable(h) && Defines(src, h) ==> TopKept(codes, h, src.members[HookName(h)])
  }

  ghost predicate TopKept(codes: seq<Source>, h: Hook, m: Method) {
    || IsWrapper(UnionNames(), m)
    || (h == ParamCandidates && IsFrozen(m))
    || exists i :: LastDefines(codes, i, h) && codes[i].members[HookName(h)] == m
  }

  function UnionNames(): set<string> {
    {UNION_COLUMNS, UNION_CANDIDATES}
  }

  ghost predicate BindingsKept(builtins: set<string>, codes: seq<Source>, src: Source) {
    forall i, n, g :: 0 <= i < |codes| && n in codes[i].members && g in Globals(codes[i].members[n].body) ==>
      Resolve(builtins, codes[i], g) == Resolve(builtins, src, g)
  }

  ghost predicate HelperImportsRight(src: Source) {
    && NoShadow(src)
    && (UNION_COLUMNS in src.imports ==> src.imports[UNION_COLUMNS] == UNION_COLUMNS_PATH)
    && (UNION_CANDIDATES in src.imports ==> src.imports[UNION_CANDIDATES] == UNION_CANDIDATES_PATH)
  }

  predicate IsUnion(g: string) {
    g == UNION_COLUMNS || g == UNION_CANDIDATES
  }

  /** What every merged class of the history keeps. */
  ghost predicate Kept(builtins: set<string>, codes: seq<Source>, src: Source) {
    && Closed(src.members)
    && HelperImportsRight(src)
    && (forall g :: g in src.helpers ==> exists i :: 0 <= i < |codes| && g in codes[i].helpers && codes[i].helpers[g] == src.helpers[g])
    && (forall g :: g in src.imports ==> IsUnion(g) || exists i :: 0 <= i < |codes| && g in codes[i].imports)
    && BindingsKept(builtins, codes, src)
    && AllKnown(codes, src.imports.Keys, src.members)
    && TopsKept(codes, src)
  }

  lemma GeneratedIsNoHook(n: string)
    requires Generated(n)
    ensures !IsHookName(n)
  {
    assert n[0] == '_';
    UnderscoreIsNoHook(n);
  }

  lemma UserCodeAvoidsUnions(builtins: set<string>, src: Source, n: string, g: string)
    requires UNION_COLUMNS !in builtins && UNION_CANDIDATES !in builtins
    requires SelfContained(builtins, src)
    requires n in src.members && g in Globals(src.members[n].body)
    ensures g != UNION_COLUMNS && g != UNION_CANDIDATES
  {
    assert Mentions(src, g);
  }

  lemma ExtraImportsAreUnions(base: Source, patch: Source, g: string)
    requires g in ComposeAll(base, patch).imports
    ensures g == UNION_COLUMNS || g == UNION_CANDIDATES
    ensures g == UNION_COLUMNS ==> ComposeAll(base, patch).imports[g] == UNION_COLUMNS_PATH
    ensures g == UNION_CANDIDATES ==> ComposeAll(base, patch).imports[g] == UNION_CANDIDATES_PATH
  {
    ComposeFirstLaid(|COMPOSE_ORDER|, base, patch);
    assert UNION_COLUMNS[7] != UNION_CANDIDATES[7];
  }

  /** A module-level name keeps its meaning in the merged scope. */
  lemma ScopeKeepsEarlier(builtins: set<string>, codes: seq<Source>, best: Source, code: Source, i: int, n: string, g: string)
    requires AllIndependent(builtins, codes + [code])
    requires Kept(builtins, codes, best)
    requires 0 <= i < |codes| && n in codes[i].members && g in Globals(codes[i].members[n].body)
    ensures Resolve(builtins, ModuleScope(best, code), g) == Resolve(builtins, codes[i], g)
  {
    var all := codes + [code];
    assert all[i] == codes[i] && all[|codes|] == code;
    UserCodeAvoidsUnions(builtins, codes[i], n, g);
    if g in ComposeAll(best, code).imports { ExtraImportsAreUnions(best, code, g); }
    assert Compatible(builtins, all[i], all[|codes|]);
    assert Binds(code, g) ==> Resolve(builtins, codes[i], g) == Resolve(builtins, code, g);
    assert Resolve(builtins, codes[i], g) == Resolve(builtins, best, g);
  }

  lemma ScopeKeepsNew(builtins: set<string>, codes: seq<Source>, best: Source, code: Source, n: string, g: string)
    requires AllIndependent(builtins, codes + [code])
    requires Kept(builtins, codes, best)
    requires n in code.members && g in Globals(code.members[n].body)
    ensures Resolve(builtins, ModuleScope(best, code), g) == Resolve(builtins, code, g)
  {
    var all := codes + [code];
    assert all[|codes|] == code;
    UserCodeAvoidsUnions(builtins, code, n, g);
    if g in ComposeAll(best, code).imports { ExtraImportsAreUnions(best, code, g); }
    forall i | 0 <= i < |codes| && Binds(codes[i], g)
      ensures Resolve(builtins, code, g) == Resolve(builtins, codes[i], g)
    {
      assert all[i] == codes[i] && Compatible(builtins, all[i], all[|codes|]);
    }
  }

  lemma StepMergeable(builtins: set<string>, codes: seq<Source>, best: Source, code: Source)
    requires AllIndependent(builtins, codes + [code])
    requires Kept(builtins, codes, best)
    ensures Mergeable(builtins, best, code)
    ensures RealCollisions(best.helpers, code.helpers) == {}
  {
    var all := codes + [code];
    assert all[|codes|] == code;
    assert forall i :: 0 <= i < |codes| ==> all[i] == codes[i] && Compatible(builtins, all[i], all[|codes|]);
    var scope := ModuleScope(best, code);
    forall n | n in best.members && n in code.members && !IsHookName(n)
      ensures best.members[n] == code.members[n]
    {
      assert Known(codes, best.imports.Keys, n, best.members[n]);
      assert !Generated(n);
      HookNameIsHookName(ParamCandidates);
      var i :| 0 <= i < |codes| && n in codes[i].members && codes[i].members[n] == best.members[n];
    }
    forall n, g | n in code.members && g in Globals(code.members[n].body)
      ensures Resolve(builtins, code, g) == Resolve(builtins, scope, g)
    {
      ScopeKeepsNew(builtins, codes, best, code, n, g);
    }
    forall n, g | n in best.members && g in Globals(best.members[n].body)
      ensures Resolve(builtins, best, g) == Resolve(builtins, scope, g)
    {
      BestBindingKept(builtins, codes, best, code, n, g);
    }
    forall g | g in best.helpers && g in code.helpers ensures best.helpers[g] == code.helpers[g] {
      var i :| 0 <= i < |codes| && g in codes[i].helpers && codes[i].helpers[g] == best.helpers[g];
      assert g !in RealCollisions(codes[i].helpers, code.helpers);
    }
  }

  lemma BestBindingKept(builtins: set<string>, codes: seq<Source>, best: Source, code: Source, n: string, g: string)
    requires AllIndependent(builtins, codes + [code])
    requires Kept(builtins, codes, best)
    requires n in best.members && g in Globals(best.members[n].body)
    ensures Resolve(builtins, best, g) == Resolve(builtins, ModuleScope(best, code), g)
  {
    var m := best.members[n];
    assert Known(codes, best.imports.Keys, n, m);
    if k :| FromCode(codes, k, m) {
      var i :| 0 <= i < |codes| && k in codes[i].members && codes[i].members[k] == m;
      ScopeKeepsEarlier(builtins, codes, best, code, i, k, g);
    } else if IsWrapper(best.imports.Keys, m) {
      WrapperLoadsUnion(best.imports.Keys, m, g);
      UnionStays(builtins, codes, best, code, g);
    }
  }

  lemma WrapperLoadsUnion(imports: set<string>, m: Method, g: string)
    requires IsWrapper(imports, m) && g in Globals(m.body)
    ensures IsUnion(g) && g in imports
  {
    var h, prev, newer :| Composable(h) && m == Wrapper(h, prev, newer) && HelperImports(h).Keys <= imports;
    WrapperRefs(h, prev, newer);
  }

  lemma UnionStays(builtins: set<string>, codes: seq<Source>, best: Source, code: Source, g: string)
    requires AllIndependent(builtins, codes + [code])
    requires Kept(builtins, codes, best)
    requires IsUnion(g) && g in best.imports
    ensures Resolve(builtins, best, g) == Resolve(builtins, ModuleScope(best, code), g)
  {
    assert (codes + [code])[|codes|] == code;
    assert UNION_COLUMNS[7] != UNION_CANDIDATES[7];
    if g in ComposeAll(best, code).imports { ExtraImportsAreUnions(best, code, g); }
  }

  /** What a patch can repeat from a merged class: a frozen candidate list, or the last definition before it. */
  lemma StepRepeatsHarmless(w: World, codes: seq<Source>, best: Source, code: Source, h: Hook)
    requires AllIndependent(w.builtins, codes + [code]) && HarmlessRepeats(w, codes + [code])
    requires Kept(w.builtins, codes, best)
    requires Repeats(best, code, h)
    ensures Harmless(w, code, h)
  {
    var m := code.members[HookName(h)];
    NotAWrapper(w.builtins, codes, code, h, UnionNames());
    assert TopKept(codes, h, best.members[HookName(h)]);
    if h == ParamCandidates && IsFrozen(m) {
      var params :| m == FrozenMethod(params);
      FrozenRepeatHarmless(w, code, params);
    } else {
      var i :| LastDefines(codes, i, h) && codes[i].members[HookName(h)] == m;
      var all := codes + [code];
      assert all[..|codes|] == codes && all[|codes|] == code;
      assert LastDefines(all[..|codes|], i, h) && Repeats(all[i], all[|codes|], h);
    }
  }

  lemma NotAWrapper(builtins: set<string>, codes: seq<Source>, code: Source, h: Hook, imports: set<string>)
    requires AllIndependent(builtins, codes + [code])
    requires Defines(code, h)
    ensures !IsWrapper(imports, code.members[HookName(h)])
  {
    var m := code.members[HookName(h)];
    assert (codes + [code])[|codes|] == code;
    forall k, prev, newer | Composable(k) && Generated(prev) ensures m != Wrapper(k, prev, newer) {
      WrapperRefs(k, prev, newer);
      GeneratedIsNoHook(prev);
      assert prev in Refs(Wrapper(k, prev, newer).body);
    }
  }

  // ---- the merge keeps it all

  lemma KnownGrows(codes: seq<Source>, code: Source, less: set<string>, more: set<string>, n: string, m: Method)
    requires less <= more && Known(codes, less, n, m)
    ensures Known(codes + [code], more, n, m)
  {
    var all := codes + [code];
    forall k | FromCode(codes, k, m) ensures FromCode(all, k, m) {
      var i :| 0 <= i < |codes| && k in codes[i].members && codes[i].members[k] == m;
      assert all[i] == codes[i];
    }
  }

  lemma StartKnown(codes: seq<Source>, best: Source, code: Source)
    requires AllKnown(codes, best.imports.Keys, best.members)
    ensures AllKnown(codes + [code], best.imports.Keys + code.imports.Keys, best.members + code.members)
  {
    var all, imports := codes + [code], best.imports.Keys + code.imports.Keys;
    var members := best.members + code.members;
    forall n | n in members ensures Known(all, imports, n, members[n]) {
      if n in code.members {
        assert all[|codes|] == code;
      } else {
        KnownGrows(codes, code, best.imports.Keys, imports, n, best.members[n]);
      }
    }
  }

  lemma {:induction false} ComposeKnown(k: nat, codes: seq<Source>, best: Source, code: Source)
    requires k <= |COMPOSE_ORDER|
    requires AllKnown(codes, best.imports.Keys, best.members)
    ensures var st := ComposeFirst(k, best, code);
            AllKnown(codes + [code], best.imports.Keys + code.imports.Keys + st.imports.Keys, st.members)
  {
    if k == 0 {
      StartKnown(codes, best, code);
      assert best.imports.Keys + code.imports.Keys + {} == best.imports.Keys + code.imports.Keys;
    } else {
      ComposeKnown(k - 1, codes, best, code);
      if IsComposed(best, code, COMPOSE_ORDER[k - 1]) {
        ComposeStepKnown(COMPOSE_ORDER[k - 1], codes, best, code, ComposeFirst(k - 1, best, code));
      }
    }
  }

  lemma ComposeStepKnown(h: Hook, codes: seq<Source>, best: Source, code: Source, st: Progress)
    requires IsComposed(best, code, h)
    requires AllKnown(codes, best.imports.Keys, best.members)
    requires AllKnown(codes + [code], best.imports.Keys + code.imports.Keys + st.imports.Keys, st.members)
    ensures var nx := Compose(h, best, code, st);
            AllKnown(codes + [code], best.imports.Keys + code.imports.Keys + nx.imports.Keys, nx.members)
  {
    var all, others := codes + [code], best.imports.Keys + code.imports.Keys;
    var prev := UniqueName(PrevStem(h), st.existing);
    var newer := UniqueName(NewStem(h), st.existing + {prev});
    assert Generated(prev) && Generated(newer);
    assert all[|codes|] == code;
    KnownGrows(codes, code, best.imports.Keys, others + st.imports.Keys, HookName(h), best.members[HookName(h)]);
    PlacedKnown(all, others + st.imports.Keys, others + (st.imports + HelperImports(h)).Keys, h, st.members, prev, newer,
                best.members[HookName(h)], code.members[HookName(h)]);
  }

  lemma PlacedKnown(codes: seq<Source>, less: set<string>, more: set<string>, h: Hook, members: map<string, Method>,
                    prev: string, newer: string, kept: Method, added: Method)
    requires Composable(h) && Generated(prev) && Generated(newer) && less <= more && HelperImports(h).Keys <= more
    requires AllKnown(codes, less, members)
    requires Known(codes, less, HookName(h), kept) && FromCode(codes, HookName(h), added)
    ensures AllKnown(codes, more, members[prev := kept][newer := added][HookName(h) := Wrapper(h, prev, newer)])
  {
    var placed := members[prev := kept][newer := added][HookName(h) := Wrapper(h, prev, newer)];
    HookNameIsHookName(h);
    forall n | n in placed ensures Known(codes, more, n, placed[n]) {
      if n == HookName(h) {
        assert IsWrapper(more, placed[n]);
      } else if n == newer {
        assert FromCode(codes, HookName(h), placed[n]);
      } else if n == prev {
        ImportsGrow(codes, less, more, HookName(h), kept);
        Renamed(codes, more, h, prev, kept);
      } else {
        ImportsGrow(codes, less, more, n, members[n]);
      }
    }
  }

  lemma Renamed(codes: seq<Source>, imports: set<string>, h: Hook, prev: string, m: Method)
    requires Composable(h) && Known(codes, imports, HookName(h), m) && Generated(prev)
    ensures Known(codes, imports, prev, m)
  {}

  lemma ImportsGrow(codes: seq<Source>, less: set<string>, more: set<string>, n: string, m: Method)
    requires less <= more && Known(codes, less, n, m)
    ensures Known(codes, more, n, m)
  {}

  lemma FrozenKnown(codes: seq<Source>, imports: set<string>, src: Source, params: Option<map<string, int>>)
    requires AllKnown(codes, imports, src.members)
    ensures AllKnown(codes, imports, Frozen(src, params).members)
  {
    if params.Some? && Defines(src, ParamCandidates) {
      var changed := src.members[HookName(ParamCandidates) := FrozenMethod(params.value)];
      PruneKeeps(changed);
      assert IsFrozen(FrozenMethod(params.value));
    }
  }

  lemma StepBindings(builtins: set<string>, codes: seq<Source>, best: Source, code: Source)
    requires AllIndependent(builtins, codes + [code])
    requires Kept(builtins, codes, best)
    ensures BindingsKept(builtins, codes + [code], ModuleScope(best, code))
  {
    var all := codes + [code];
    forall i, n, g | 0 <= i < |all| && n in all[i].members && g in Globals(all[i].members[n].body)
      ensures Resolve(builtins, all[i], g) == Resolve(builtins, ModuleScope(best, code), g)
    {
      if i < |codes| {
        ScopeKeepsEarlier(builtins, codes, best, code, i, n, g);
      } else {
        ScopeKeepsNew(builtins, codes, best, code, n, g);
      }
    }
  }

  lemma StepHelpers(codes: seq<Source>, best: Source, code: Source, g: string)
    requires g in best.helpers ==> exists i :: 0 <= i < |codes| && g in codes[i].helpers && codes[i].helpers[g] == best.helpers[g]
    requires g in ModuleScope(best, code).helpers
    ensures var all := codes + [code];
            exists i :: 0 <= i < |all| && g in all[i].helpers && all[i].helpers[g] == ModuleScope(best, code).helpers[g]
  {
    var all := codes + [code];
    if g in code.helpers {
      assert g in all[|codes|].helpers;
    } else {
      var i :| 0 <= i < |codes| && g in codes[i].helpers && codes[i].helpers[g] == best.helpers[g];
      assert g in all[i].helpers;
    }
  }

  lemma StepImports(codes: seq<Source>, best: Source, code: Source, g: string)
    requires g in best.imports ==> IsUnion(g) || exists i :: 0 <= i < |codes| && g in codes[i].imports
    requires g in ModuleScope(best, code).imports
    ensures var all := codes + [code]; IsUnion(g) || exists i :: 0 <= i < |all| && g in all[i].imports
  {
    var all := codes + [code];
    if g in ComposeAll(best, code).imports {
      ExtraImportsAreUnions(best, code, g);
    } else if g in code.imports {
      assert g in all[|codes|].imports;
    } else if !IsUnion(g) {
      var i :| 0 <= i < |codes| && g in codes[i].imports;
      assert g in all[i].imports;
    }
  }

  lemma StepUnions(best: Source, code: Source)
    requires HelperImportsRight(best) && !Binds(code, UNION_COLUMNS) && !Binds(code, UNION_CANDIDATES)
    ensures HelperImportsRight(ModuleScope(best, code))
  {
    forall g | g in ComposeAll(best, code).imports
      ensures (g == UNION_COLUMNS ==> ComposeAll(best, code).imports[g] == UNION_COLUMNS_PATH)
           && (g == UNION_CANDIDATES ==> ComposeAll(best, code).imports[g] == UNION_CANDIDATES_PATH)
    {
      ExtraImportsAreUnions(best, code, g);
    }
  }

  /** One merge more: the hook on top is a wrapper, the patch's own text, or what it was. */
  lemma StepTop(codes: seq<Source>, best: Source, code: Source, h: Hook)
    requires Composable(h) && HookName(h) in CoreMembers(best, code)
    requires Defines(best, h) ==> TopKept(codes, h, best.members[HookName(h)])
    ensures TopKept(codes + [code], h, CoreMembers(best, code)[HookName(h)])
  {
    var all := codes + [code];
    var m := CoreMembers(best, code)[HookName(h)];
    HookPlaces(best, code, h);
    if IsComposed(best, code, h) {
      TopIsWrapper(best, code, h);
    } else if Defines(code, h) {
      assert LastDefines(all, |codes|, h) && all[|codes|].members[HookName(h)] == m;
    } else if i :| LastDefines(codes, i, h) && codes[i].members[HookName(h)] == m {
      assert LastDefines(all, i, h) && all[i].members[HookName(h)] == m;
    }
  }

  lemma TopIsWrapper(best: Source, code: Source, h: Hook)
    requires IsComposed(best, code, h) && HookName(h) in CoreMembers(best, code)
    ensures IsWrapper(UnionNames(), CoreMembers(best, code)[HookName(h)])
  {
    InOrder(h);
    WrapperOnTop(|COMPOSE_ORDER|, best, code, h);
    SuppressedAreHooks(code);
  }

  lemma {:induction false} WrapperOnTop(k: nat, best: Source, code: Source, h: Hook)
    requires k <= |COMPOSE_ORDER| && IsComposed(best, code, h) && h in COMPOSE_ORDER[..k]
    ensures var st := ComposeFirst(k, best, code);
            HookName(h) in st.members && IsWrapper(UnionNames(), st.members[HookName(h)])
  {
    var g := COMPOSE_ORDER[k - 1];
    assert COMPOSE_ORDER[..k] == COMPOSE_ORDER[..k - 1] + [g];
    var st := ComposeFirst(k - 1, best, code);
    if h == g {
      var prev := UniqueName(PrevStem(h), st.existing);
      var newer := UniqueName(NewStem(h), st.existing + {prev});
      assert Generated(prev);
      assert Compose(h, best, code, st).members[HookName(h)] == Wrapper(h, prev, newer);
    } else {
      WrapperOnTop(k - 1, best, code, h);
      if IsComposed(best, code, g) { OtherHookSame(g, h, best, code, st); }
    }
  }

  /** The invariant, put together from the module scope and the members. */
  lemma KeptFrom(builtins: set<string>, codes: seq<Source>, best: Source, code: Source, out: Source)
    requires AllIndependent(builtins, codes + [code])
    requires Kept(builtins, codes, best)
    requires out.helpers == ModuleScope(best, code).helpers && out.imports == ModuleScope(best, code).imports
    requires Closed(out.members) && AllKnown(codes + [code], out.imports.Keys, out.members)
    requires TopsKept(codes + [code], out)
    ensures Kept(builtins, codes + [code], out)
  {
    var all := codes + [code];
    assert all[|codes|] == code;
    StepUnions(best, code);
    StepBindings(builtins, codes, best, code);
    assert forall g :: Resolve(builtins, out, g) == Resolve(builtins, ModuleScope(best, code), g);
    forall g | g in out.helpers
      ensures exists i :: 0 <= i < |all| && g in all[i].helpers && all[i].helpers[g] == out.helpers[g]
    {
      StepHelpers(codes, best, code, g);
    }
    forall g | g in out.imports ensures IsUnion(g) || exists i :: 0 <= i < |all| && g in all[i].imports {
      StepImports(codes, best, code, g);
    }
  }

  /** One more promotion keeps the invariant. */
  lemma StepKept(builtins: set<string>, codes: seq<Source>, best: Source, code: Source)
    requires AllIndependent(builtins, codes + [code])
    requires Kept(builtins, codes, best)
    ensures Kept(builtins, codes + [code], Frozen(CoreSource(best, code), ExtractFrozen(code)))
  {
    var core := CoreSource(best, code);
    var out := Frozen(core, ExtractFrozen(code));
    StepMergeable(builtins, codes, best, code);
    LayersKept(best, code);
    CoreKnown(codes, best, code);
    if ExtractFrozen(code).Some? && Defines(core, ParamCandidates) {
      FrozenMembers(core, ExtractFrozen(code).value);
    } else {
      assert out == core;
    }
    FrozenKnown(codes + [code], out.imports.Keys, core, ExtractFrozen(code));
    StepTops(codes, best, code);
    KeptFrom(builtins, codes, best, code, out);
  }

  lemma StepTops(codes: seq<Source>, best: Source, code: Source)
    requires Closed(best.members) && Closed(code.members) && ShareMembers(best, code) && TopsKept(codes, best)
    ensures TopsKept(codes + [code], Frozen(CoreSource(best, code), ExtractFrozen(code)))
  {
    var core := CoreSource(best, code);
    var out := Frozen(core, ExtractFrozen(code));
    LayersKept(best, code);
    var frozen := ExtractFrozen(code).Some? && Defines(core, ParamCandidates);
    if frozen { FrozenMembers(core, ExtractFrozen(code).value); }
    forall h | Composable(h) && Defines(out, h) ensures TopKept(codes + [code], h, out.members[HookName(h)]) {
      if frozen && HookName(h) == HookName(ParamCandidates) {
        HookNameInjective(h, ParamCandidates);
      } else {
        StepTop(codes, best, code, h);
      }
    }
  }

  lemma CoreKnown(codes: seq<Source>, best: Source, code: Source)
    requires AllKnown(codes, best.imports.Keys, best.members)
    ensures AllKnown(codes + [code], CoreSource(best, code).imports.Keys, CoreMembers(best, code))
  {
    ComposeKnown(|COMPOSE_ORDER|, codes, best, code);
    var st := ComposeAll(best, code);
    assert CoreSource(best, code).imports.Keys == best.imports.Keys + code.imports.Keys + st.imports.Keys;
    forall n | n in CoreMembers(best, code)
      ensures Known(codes + [code], CoreSource(best, code).imports.Keys, n, CoreMembers(best, code)[n])
    {
      assert n in st.members;
    }
  }

  /** A class that keeps the invariant passes the undefined-name check, wrappers included. */
  lemma KeptPassesCheck(builtins: set<string>, codes: seq<Source>, src: Source)
    requires AllIndependent(builtins, codes)
    requires Kept(builtins, codes, src)
    ensures UndefinedMembers(builtins, src) == {}
  {
    forall n, g | n in src.members && g in Sought(n, src.members[n])
      ensures !Resolve(builtins, src, g).Undefined?
    {
      var m := src.members[n];
      assert Known(codes, src.imports.Keys, n, m);
      if FromCode(codes, n, m) {
        CodeFindsNames(builtins, codes, n, m, g);
      } else if Generated(n) && exists h :: Composable(h) && FromCode(codes, HookName(h), m) {
        var h :| Composable(h) && FromCode(codes, HookName(h), m);
        RenamedFindsNames(builtins, codes, h, m, g);
      } else if IsWrapper(src.imports.Keys, m) {
        var h, prev, newer :| Composable(h) && m == Wrapper(h, prev, newer) && HelperImports(h).Keys <= src.imports.Keys;
        WrapperRefs(h, prev, newer);
      }
    }
  }

  /** A patch's method finds in its patch what the check looks for. */
  lemma CodeFindsNames(builtins: set<string>, codes: seq<Source>, n: string, m: Method, g: string)
    requires AllIndependent(builtins, codes) && FromCode(codes, n, m) && g in Sought(n, m)
    ensures exists i :: 0 <= i < |codes| && n in codes[i].members && codes[i].members[n] == m
                        && g in Globals(codes[i].members[n].body) && !Resolve(builtins, codes[i], g).Undefined?
  {
    var i :| 0 <= i < |codes| && n in codes[i].members && codes[i].members[n] == m;
    SoughtIsDefined(builtins, codes[i], n, g);
  }

  /** So does a composable hook's method under another name, because it does not seek itself. */
  lemma RenamedFindsNames(builtins: set<string>, codes: seq<Source>, h: Hook, m: Method, g: string)
    requires AllIndependent(builtins, codes) && Composable(h) && FromCode(codes, HookName(h), m)
    requires g in Globals(m.body) - m.masked
    ensures exists i :: 0 <= i < |codes| && HookName(h) in codes[i].members && codes[i].members[HookName(h)] == m
                        && g in Globals(codes[i].members[HookName(h)].body) && !Resolve(builtins, codes[i], g).Undefined?
  {
    var i :| 0 <= i < |codes| && HookName(h) in codes[i].members && codes[i].members[HookName(h)] == m;
    assert !SeeksItself(builtins, codes[i], h);
    if g != HookName(h) { SoughtIsDefined(builtins, codes[i], HookName(h), g); }
  }

  lemma {:induction false} ReplayKeeps(builtins: set<string>, codes: seq<Source>)
    requires AllIndependent(builtins, codes)
    ensures Replay(builtins, codes).Success?
    ensures Kept(builtins, codes, Replay(builtins, codes).source)
  {
    if codes != [] {
      var init, code := codes[..|codes| - 1], codes[|codes| - 1];
      assert codes == init + [code];
      ReplayKeeps(builtins, init);
      var best := Replay(builtins, init).source;
      StepMergeable(builtins, init, best, code);
      StepKept(builtins, init, best, code);
      KeptPassesCheck(builtins, codes, Frozen(CoreSource(best, code), ExtractFrozen(code)));
    }
  }

  lemma {:induction false} ReplayIsSound(w: World, codes: seq<Source>)
    requires AllIndependent(w.builtins, codes) && HarmlessRepeats(w, codes)
    ensures ReplaySound(w, codes)
  {
    if codes != [] {
      var init, code := codes[..|codes| - 1], codes[|codes| - 1];
      assert codes == init + [code];
      forall i, j, h | 0 <= j < |init| && LastDefines(init[..j], i, h) && Repeats(init[i], init[j], h)
        ensures Harmless(w, init[j], h)
      {
        assert init[..j] == codes[..j] && init[i] == codes[i] && init[j] == codes[j];
      }
      ReplayIsSound(w, init);
      ReplayKeeps(w.builtins, init);
      var best := Replay(w.builtins, init).source;
      StepMergeable(w.builtins, init, best, code);
      forall h | Repeats(best, code, h) ensures Harmless(w, code, h) {
        StepRepeatsHarmless(w, init, best, code, h);
      }
    }
  }

  /** Any history of independent patches, of any length and with any freezes in it, replays without an
      error into a flat class that is interchangeable with the nested pipeline. */
  lemma IndependentPatchesReplay(w: World, codes: seq<Source>)
    requires AllIndependent(w.builtins, codes) && HarmlessRepeats(w, codes)
    ensures Replay(w.builtins, codes).Success?
    ensures Interchangeable(w, Chain(codes), Flat(Replay(w.builtins, codes).source))
    ensures UndefinedMembers(w.builtins, Replay(w.builtins, codes).source) == {}
  {
    ReplayKeeps(w.builtins, codes);
    ReplayIsSound(w, codes);
    ReplayPreservesMeaning(w, codes);
    KeptPassesCheck(w.builtins, codes, Replay(w.builtins, codes).source);
  }
}
