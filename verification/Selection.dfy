/** preselect_params (evaluator/harness.py) and what freezing does to the candidate pool. */
module Selection {
  import opened Names
  import opened Python
  import opened Harness
  import opened Materialize
  import opened MergeMeaning
  import opened Freeze

  const MAX_PARAM_CANDIDATES := 12

  const NO_PARAMS: Value := Params(map[])

  function Capped(candidates: seq<Value>): seq<Value> {
    if |candidates| <= MAX_PARAM_CANDIDATES then candidates else candidates[..MAX_PARAM_CANDIDATES]
  }

  /** cands[i] scores at least as well as every candidate, and strictly better than the earlier ones. */
  ghost predicate EarliestBest(cands: seq<Value>, score: Value -> real, sign: int, i: int) {
    && 0 <= i < |cands|
    && (forall j :: 0 <= j < |cands| ==> sign as real * score(cands[j]) <= sign as real * score(cands[i]))
    && (forall j :: 0 <= j < i ==> sign as real * score(cands[j]) < sign as real * score(cands[i]))
  }

  /** What preselect_params may return. */
  ghost predicate IsSelected(specGiven: bool, candidates: seq<Value>, score: Value -> real, sign: int, r: Value) {
    if specGiven || candidates == [] then r == NO_PARAMS
    else exists i :: EarliestBest(Capped(candidates), score, sign, i) && r == Capped(candidates)[i]
  }

  lemma SelectionIsUnique(specGiven: bool, candidates: seq<Value>, score: Value -> real, sign: int, r: Value, s: Value)
    requires IsSelected(specGiven, candidates, score, sign, r) && IsSelected(specGiven, candidates, score, sign, s)
    ensures r == s
  {}

  /** preselect_params: specGiven says ensemble_spec or model_spec returned something; score fits and
      scores one candidate on the inner split. */
  method PreselectParams(specGiven: bool, candidates: seq<Value>, score: Value -> real, sign: int)
    returns (best: Value)
    ensures IsSelected(specGiven, candidates, score, sign, best)
  {
    if specGiven {
      return NO_PARAMS;
    }
    var cands := Capped(candidates);
    if |cands| <= 1 {
      best := if cands == [] then NO_PARAMS else cands[0];
      assert cands != [] ==> EarliestBest(cands, score, sign, 0);
      return;
    }
    var bestScore: Option<real> := None;
    best := cands[0];
    ghost var at := 0;
    for i := 0 to |cands|
      invariant bestScore.None? <==> i == 0
      invariant i == 0 ==> at == 0
      invariant i > 0 ==> at < i && best == cands[at] && bestScore.value == score(best)
      invariant i > 0 ==> EarliestBest(cands[..i], score, sign, at)
    {
      var params := cands[i];
      var s := score(params);
      if bestScore.None? || sign as real * s > sign as real * bestScore.value {
        bestScore := Some(s);
        best := params;
        at := i;
      }
      assert cands[..i + 1] == cands[..i] + [params];
    }
    assert cands[..|cands|] == cands;
  }

  // ---- the selection of a pipeline

  ghost predicate SpecGiven(w: World, p: Pipeline, ctx: Value) {
    RunHook(w, p, EnsembleSpec, [ctx]) != Return(NoneValue) || RunHook(w, p, ModelSpec, [ctx]) != Return(NoneValue)
  }

  /** preselect_params(p) gives r, p's param_candidates returning a list. */
  ghost predicate Selects(w: World, p: Pipeline, ctx: Value, score: Value -> real, sign: int, r: Value) {
    var o := RunHook(w, p, ParamCandidates, [ctx]);
    if SpecGiven(w, p, ctx) then r == NO_PARAMS
    else o.Return? && o.value.List? && IsSelected(false, o.value.elements, score, sign, r)
  }

  /** A declarative spec of either kind takes no params: nothing is selected, whatever the candidates are. */
  lemma SpecSelectsNothing(w: World, p: Pipeline, ctx: Value, score: Value -> real, sign: int, r: Value, h: Hook)
    requires (h == EnsembleSpec || h == ModelSpec) && RunHook(w, p, h, [ctx]) != Return(NoneValue)
    ensures Selects(w, p, ctx, score, sign, r) <==> r == NO_PARAMS
  {}

  /** Freezing a class to the params it selected preserves the selection, however the frozen class is
      scored, and the frozen class has no other candidate. */
  lemma FreezePreservesSelection(w: World, src: Source, ctx: Value, score: Value -> real, rescore: Value -> real,
                                 sign: int, params: map<string, int>)
    requires Closed(src.members) && Defines(src, ParamCandidates)
    requires Selects(w, Flat(src), ctx, score, sign, Params(params))
    ensures Selects(w, Flat(Frozen(src, Some(params))), ctx, rescore, sign, Params(params))
    ensures RunHook(w, Flat(Frozen(src, Some(params))), ParamCandidates, [ctx]) == Return(List([Params(params)]))
  {
    var out := Frozen(src, Some(params));
    FrozenMembers(src, params);
    FrozenCall(w, out, params, [ctx]);
    OtherHooksUnmoved(w, src, params, EnsembleSpec, [ctx]);
    OtherHooksUnmoved(w, src, params, ModelSpec, [ctx]);
    assert SpecGiven(w, Flat(out), ctx) == SpecGiven(w, Flat(src), ctx);
    if !SpecGiven(w, Flat(src), ctx) {
      assert EarliestBest(Capped([Params(params)]), rescore, sign, 0);
    }
  }

  // ---- the pool under the cap

  function Without(ys: seq<Value>, xs: seq<Value>): seq<Value> {
    if ys == [] then []
    else
      var init, y := Without(ys[..|ys| - 1], xs), ys[|ys| - 1];
      if y in xs then init else init + [y]
  }

  lemma {:induction false} WithoutFacts(ys: seq<Value>, xs: seq<Value>)
    ensures forall y :: y in Without(ys, xs) <==> y in ys && y !in xs
  {
    if ys != [] {
      WithoutFacts(ys[..|ys| - 1], xs);
      assert ys == ys[..|ys| - 1] + [ys[|ys| - 1]];
    }
  }

  /** The union lists the base's distinct candidates, then the patch's distinct new ones, in order. */
  lemma {:induction false} UnionIsBaseThenNew(xs: seq<Value>, ys: seq<Value>)
    ensures UnionCandidates(xs, ys) == Dedup(xs) + Dedup(Without(ys, xs))
  {
    if ys == [] {
      assert xs + ys == xs;
    } else {
      var init, y := ys[..|ys| - 1], ys[|ys| - 1];
      UnionIsBaseThenNew(xs, init);
      assert (xs + ys)[..|xs + ys| - 1] == xs + init && (xs + ys)[|xs + ys| - 1] == y;
      DedupFacts(xs);
      WithoutFacts(init, xs);
      DedupFacts(Without(init, xs));
      if y !in xs {
        var added := Without(init, xs) + [y];
        assert added[..|added| - 1] == Without(init, xs);
        assert Dedup(xs) + (Dedup(Without(init, xs)) + [y]) == (Dedup(xs) + Dedup(Without(init, xs))) + [y];
      }
    }
  }

  /** Grouping does not matter. */
  lemma UnionCandidatesAssociative(xs: seq<Value>, ys: seq<Value>, zs: seq<Value>)
    ensures UnionCandidates(UnionCandidates(xs, ys), zs) == UnionCandidates(xs, UnionCandidates(ys, zs))
  {
    DedupFirst(xs + ys, zs);
    DedupSecond(xs, ys + zs);
    assert (xs + ys) + zs == xs + (ys + zs);
  }

  lemma DedupFirst(xs: seq<Value>, zs: seq<Value>)
    ensures Dedup(Dedup(xs) + zs) == Dedup(xs + zs)
  {
    UnionIsBaseThenNew(Dedup(xs), zs);
    UnionIsBaseThenNew(xs, zs);
    DedupFacts(xs);
    DedupFacts(Dedup(xs));
    WithoutSame(zs, xs, Dedup(xs));
  }

  lemma {:induction false} WithoutSame(zs: seq<Value>, xs: seq<Value>, ys: seq<Value>)
    requires forall x :: x in xs <==> x in ys
    ensures Without(zs, xs) == Without(zs, ys)
  {
    if zs != [] {
      WithoutSame(zs[..|zs| - 1], xs, ys);
    }
  }

  lemma DedupNext(xs: seq<Value>, x: Value)
    ensures Dedup(xs + [x]) == if x in xs then Dedup(xs) else Dedup(xs) + [x]
  {
    assert (xs + [x])[..|xs|] == xs;
    DedupFacts(xs);
  }

  lemma {:induction false} DedupSecond(xs: seq<Value>, ys: seq<Value>)
    ensures Dedup(xs + Dedup(ys)) == Dedup(xs + ys)
  {
    if ys != [] {
      var init, y := ys[..|ys| - 1], ys[|ys| - 1];
      DedupSecond(xs, init);
      DedupSecondNext(xs, init, y);
      assert ys == init + [y];
    }
  }

  lemma DedupSecondNext(xs: seq<Value>, init: seq<Value>, y: Value)
    requires Dedup(xs + Dedup(init)) == Dedup(xs + init)
    ensures Dedup(xs + Dedup(init + [y])) == Dedup(xs + (init + [y]))
  {
    var distinct := Dedup(init);
    DedupFacts(init);
    DedupNext(init, y);
    Regrouped(xs, init, y);
    if y in init {
      DedupNext(xs + init, y);
    } else {
      Regrouped(xs, distinct, y);
      DedupBoth(xs + distinct, xs + init, y);
    }
  }

  lemma Regrouped(xs: seq<Value>, ys: seq<Value>, y: Value)
    ensures xs + (ys + [y]) == (xs + ys) + [y]
  {}

  lemma DedupBoth(xs: seq<Value>, ys: seq<Value>, y: Value)
    requires Dedup(xs) == Dedup(ys) && (y in xs <==> y in ys)
    ensures Dedup(xs + [y]) == Dedup(ys + [y])
  {
    DedupNext(xs, y);
    DedupNext(ys, y);
  }

  lemma UnionColumnsAssociative(xs: seq<Column>, ys: seq<Column>, zs: seq<Column>)
    ensures UnionColumns(UnionColumns(xs, ys), zs) == UnionColumns(xs, UnionColumns(ys, zs))
  {
    DropSplits(DropColumns(xs, ColumnNames(ys)), ys, ColumnNames(zs));
    DropTwice(xs, ColumnNames(ys), ColumnNames(zs));
    DropNames(ys, ColumnNames(zs));
    var kept := DropColumns(ys, ColumnNames(zs));
    assert ColumnNames(kept + zs) == ColumnNames(kept) + ColumnNames(zs);
    assert ColumnNames(UnionColumns(ys, zs)) == ColumnNames(ys) + ColumnNames(zs);
    assert (DropColumns(xs, ColumnNames(ys) + ColumnNames(zs)) + kept) + zs ==
           DropColumns(xs, ColumnNames(ys) + ColumnNames(zs)) + (kept + zs);
  }

  lemma {:induction false} DropSplits(xs: seq<Column>, ys: seq<Column>, names: set<string>)
    ensures DropColumns(xs + ys, names) == DropColumns(xs, names) + DropColumns(ys, names)
  {
    if xs == [] {
      assert xs + ys == ys;
    } else {
      assert (xs + ys)[1..] == xs[1..] + ys;
      DropSplits(xs[1..], ys, names);
    }
  }

  lemma {:induction false} DropTwice(xs: seq<Column>, a: set<string>, b: set<string>)
    ensures DropColumns(DropColumns(xs, a), b) == DropColumns(xs, a + b)
  {
    if xs != [] {
      DropTwice(xs[1..], a, b);
      if xs[0].name !in a {
        assert ([xs[0]] + DropColumns(xs[1..], a))[1..] == DropColumns(xs[1..], a);
      }
    }
  }

  lemma {:induction false} DropNames(xs: seq<Column>, names: set<string>)
    ensures ColumnNames(DropColumns(xs, names)) == ColumnNames(xs) - names
  {
    if xs != [] {
      DropNames(xs[1..], names);
      assert ColumnNames(xs) == {xs[0].name} + ColumnNames(xs[1..]);
      var rest := DropColumns(xs[1..], names);
      assert ColumnNames([xs[0]] + rest) == {xs[0].name} + ColumnNames(rest);
    }
  }

  /** Right after a freeze, the cap leaves room for the first 11 distinct new candidates of the next
      patch, after the frozen one. */
  lemma NewCandidatesSurviveAfterFreeze(w: World, src: Source, patch: Source, params: map<string, int>, ctx: Value, xs: seq<Value>)
    requires Closed(src.members) && Defines(src, ParamCandidates)
    requires Defines(patch, ParamCandidates) && HookName(ParamCandidates) !in patch.overrides
    requires Call(w, patch, HookName(ParamCandidates), [ctx]) == Return(List(xs))
    ensures var o := RunHook(w, Layered(Frozen(src, Some(params)), patch), ParamCandidates, [ctx]);
            var added := Dedup(Without(xs, [Params(params)]));
            && o.Return? && o.value.List?
            && Capped(o.value.elements) == [Params(params)] + (if |added| <= 11 then added else added[..11])
  {
    var p := Params(params);
    var out := Frozen(src, Some(params));
    FrozenMembers(src, params);
    FrozenCall(w, out, params, [ctx]);
    assert RunHook(w, Flat(out), ParamCandidates, [ctx]) == Return(List([p]));
    UnionIsBaseThenNew([p], xs);
    assert Dedup([p]) == [p] by { assert [p][..0] == []; }
  }

  /** Without a freeze a full pool drops every new candidate. */
  lemma FullPoolDropsNewCandidates(xs: seq<Value>, ys: seq<Value>)
    requires |Dedup(xs)| >= MAX_PARAM_CANDIDATES
    ensures Capped(UnionCandidates(xs, ys)) == Capped(Dedup(xs))
  {
    UnionIsBaseThenNew(xs, ys);
  }
}
