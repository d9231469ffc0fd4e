/** Inputs on which the merged class and the layered pipeline differ: each side condition is needed. */
module MergeLimits {
  import opened Names
  import opened Python
  import opened Harness
  import opened Materialize
  import opened MergeMeaning
  import opened RepeatedHooks

  function OnlyMembers(members: map<string, Method>): Source {
    EMPTY_SOURCE.(members := members)
  }

  /** A non-hook member redefined differently is replaced for the base's methods too. */
  lemma ReplacedMemberChangesBase(w: World, params: Value, ctx: Value)
    ensures var base := OnlyMembers(map["build_model" := Method(2, {}, SelfCall("k", [])), "k" := Method(0, {}, Const(Opaque(1)))]);
            var patch := OnlyMembers(map["k" := Method(0, {}, Const(Opaque(2)))]);
            && Closed(base.members) && Closed(patch.members)
            && RunHook(w, Layered(base, patch), BuildModel, [params, ctx]) == Return(Opaque(1))
            && RunHook(w, Flat(CoreSource(base, patch)), BuildModel, [params, ctx]) == Return(Opaque(2))
  {
    var call := SelfCall("k", []);
    var base := OnlyMembers(map["build_model" := Method(2, {}, call), "k" := Method(0, {}, Const(Opaque(1)))]);
    var patch := OnlyMembers(map["k" := Method(0, {}, Const(Opaque(2)))]);
    assert !IsHookName("k");
    assert RefsAll([]) == {};
    ReplacedEverywhere(w, base, patch, "k", params, ctx);
  }

  lemma ReplacedEverywhere(w: World, base: Source, patch: Source, k: string, params: Value, ctx: Value)
    requires !IsHookName(k) && patch.members == map[k := Method(0, {}, Const(Opaque(2)))]
    requires Defines(base, BuildModel) && base.members[HookName(BuildModel)] == Method(2, {}, SelfCall(k, []))
    requires k in base.members && base.members[k] == Method(0, {}, Const(Opaque(1)))
    ensures RunHook(w, Layered(base, patch), BuildModel, [params, ctx]) == Return(Opaque(1))
    ensures RunHook(w, Flat(CoreSource(base, patch)), BuildModel, [params, ctx]) == Return(Opaque(2))
  {
    var out := CoreSource(base, patch);
    ComposeFirstLaid(|COMPOSE_ORDER|, base, patch);
    SuppressedAreHooks(patch);
    assert SameAt(ComposeAll(base, patch).members, base.members + patch.members, k);
    forall h ensures !Defines(patch, h) { HookNameIsHookName(h); }
    HookPlaces(base, patch, BuildModel);
    CallConstant(w, base, k, Opaque(1), [params, ctx]);
    CallConstant(w, out, k, Opaque(2), [params, ctx]);
  }

  lemma CallConstant(w: World, src: Source, n: string, v: Value, env: seq<Value>)
    requires n in src.members && src.members[n] == Method(0, {}, Const(v))
    ensures Run(w, src, SelfCall(n, []), env) == Return(v)
  {
    SelfCallVars(w, src, n, [], env, []);
    RunIs(w, src, Const(v), [], 0, Return(v));
  }

  /** A module-level name that the patch imports from elsewhere is rebound for the base's methods too. */
  lemma ReboundImportChangesBase(w: World, a: string, b: string, params: Value, ctx: Value)
    ensures var base := OnlyMembers(map["build_model" := Method(2, {}, Global("make", []))]).(imports := map["make" := a]);
            var patch := EMPTY_SOURCE.(imports := map["make" := b]);
            && RealCollisions(base.helpers, patch.helpers) == {}
            && RunHook(w, Layered(base, patch), BuildModel, [params, ctx]) == w.call(Imported(a), [])
            && RunHook(w, Flat(CoreSource(base, patch)), BuildModel, [params, ctx]) == w.call(Imported(b), [])
  {
    var base := OnlyMembers(map["build_model" := Method(2, {}, Global("make", []))]).(imports := map["make" := a]);
    var patch := EMPTY_SOURCE.(imports := map["make" := b]);
    assert HookName(BuildModel) == "build_model";
    forall h ensures !IsComposed(base, patch, h) {}
    NothingComposed(|COMPOSE_ORDER|, base, patch);
    HookPlaces(base, patch, BuildModel);
    CallImported(w, base, HookName(BuildModel), "make", a, [params, ctx]);
    CallImported(w, CoreSource(base, patch), HookName(BuildModel), "make", b, [params, ctx]);
  }

  lemma CallImported(w: World, src: Source, n: string, g: string, path: string, vs: seq<Value>)
    requires n in src.members && src.members[n] == Method(|vs|, {}, Global(g, []))
    requires g !in src.helpers && g in src.imports && src.imports[g] == path
    ensures Call(w, src, n, vs) == w.call(Imported(path), [])
  {
    RunIs(w, src, Global(g, []), vs, 0, w.call(Imported(path), []));
  }

  /** A method that calls a hook through self reaches the wrapper once the hook is composed. */
  lemma HookCalledThroughSelfReachesWrapper(w: World, x: int, ctx: Value)
    ensures var base := OnlyMembers(map["postprocess_predictions" := Method(2, {}, Const(Opaque(1)))]);
            var patch := OnlyMembers(map[
              "postprocess_predictions" := Method(2, {}, Var(0)),
              "build_model" := Method(2, {}, SelfCall("postprocess_predictions", Vars([0, 1])))]);
            && RunHook(w, Layered(base, patch), BuildModel, [Opaque(x), ctx]) == Return(Opaque(x))
            && RunHook(w, Flat(CoreSource(base, patch)), BuildModel, [Opaque(x), ctx]) == Return(Opaque(1))
  {
    var base := OnlyMembers(map["postprocess_predictions" := Method(2, {}, Const(Opaque(1)))]);
    var call := SelfCall("postprocess_predictions", Vars([0, 1]));
    var patch := OnlyMembers(map["postprocess_predictions" := Method(2, {}, Var(0)), "build_model" := Method(2, {}, call)]);
    PatchCallsItsOwn(w, patch, x, ctx);
    MergedCallsWrapper(w, base, patch, x, ctx);
  }

  predicate CallsHook(src: Source) {
    && Defines(src, PostprocessPredictions) && src.members[HookName(PostprocessPredictions)] == Method(2, {}, Var(0))
    && Defines(src, BuildModel)
    && src.members[HookName(BuildModel)] == Method(2, {}, SelfCall(HookName(PostprocessPredictions), Vars([0, 1])))
  }

  lemma PatchCallsItsOwn(w: World, patch: Source, x: int, ctx: Value)
    requires CallsHook(patch)
    ensures Call(w, patch, HookName(BuildModel), [Opaque(x), ctx]) == Return(Opaque(x))
  {
    var args := [Opaque(x), ctx];
    SelfCallVars(w, patch, HookName(PostprocessPredictions), Vars([0, 1]), args, args);
    RunVar(w, patch, 0, args);
  }

  lemma MergedCallsWrapper(w: World, base: Source, patch: Source, x: int, ctx: Value)
    requires CallsHook(patch) && HookName(BuildModel) !in base.members && patch.overrides == {}
    requires Defines(base, PostprocessPredictions) && base.members[HookName(PostprocessPredictions)] == Method(2, {}, Const(Opaque(1)))
    ensures RunHook(w, Flat(CoreSource(base, patch)), BuildModel, [Opaque(x), ctx]) == Return(Opaque(1))
  {
    var h := PostprocessPredictions;
    var args := [Opaque(x), ctx];
    var out := CoreSource(base, patch);
    assert IsComposed(base, patch, h);
    HookPlaces(base, patch, h);
    HookPlaces(base, patch, BuildModel);
    var prev, newer :| ComposedAs(out.members, base, patch, h, prev, newer);
    SelfCallVars(w, out, HookName(h), Vars([0, 1]), args, args);
    WrapperMeaning(w, out, h, prev, newer, args);
    RunIs(w, out, Const(Opaque(1)), args, 0, Return(Opaque(1)));
    RunVar(w, out, 0, [Opaque(1), ctx]);
  }

  /** A hook that pairs its input with itself is not stable under a second run: with the same text in base
      and patch, the layers pair twice and the merged class once. */
  lemma RepeatedTextRunsOnce(w: World, x: Value, ctx: Value)
    ensures var src := OnlyMembers(map["postprocess_predictions" := Method(2, {}, Display([Var(0), Var(0)]))]);
            && Mergeable(w.builtins, src, src) && Repeats(src, src, PostprocessPredictions)
            && RunHook(w, Flat(CoreSource(src, src)), PostprocessPredictions, [x, ctx]) == Return(Tuple([x, x]))
            && RunHook(w, Layered(src, src), PostprocessPredictions, [x, ctx]) ==
               Return(Tuple([Tuple([x, x]), Tuple([x, x])]))
  {
    var body := Display([Var(0), Var(0)]);
    var src := OnlyMembers(map["postprocess_predictions" := Method(2, {}, body)]);
    assert IsHookName("postprocess_predictions") by { HookNameIsHookName(PostprocessPredictions); }
    VarsReferToNothing([Var(0), Var(0)]);
    MergesWithItself(w.builtins, src);
    RepeatedHook(w, src, src, PostprocessPredictions, [x, ctx]);
    Twice(w, src, x, ctx);
    Twice(w, src, Tuple([x, x]), ctx);
  }

  lemma MergesWithItself(builtins: set<string>, src: Source)
    requires src.helpers == map[]
    requires forall n :: n in src.members ==> Refs(src.members[n].body) == {} && Globals(src.members[n].body) == {}
    ensures Mergeable(builtins, src, src)
  {}

  lemma Twice(w: World, src: Source, x: Value, ctx: Value)
    requires Defines(src, PostprocessPredictions)
    requires src.members[HookName(PostprocessPredictions)] == Method(2, {}, Display([Var(0), Var(0)]))
    ensures Call(w, src, HookName(PostprocessPredictions), [x, ctx]) == Return(Tuple([x, x]))
  {
    RunVar(w, src, 0, [x, ctx]);
    RunDisplay2(w, src, Var(0), Var(0), [x, ctx]);
  }
}
