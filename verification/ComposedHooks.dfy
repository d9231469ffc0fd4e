/** What a composed hook returns, said without the merge's and the pipeline's own code: which columns and
    candidates win, what is passed on to whom, and what an override does (evaluator/harness.py,
    cycle/materialize.py). */
module ComposedHooks {
  import opened Names
  import opened Python
  import opened Harness
  import opened Materialize
  import opened MergeMeaning
  import opened Freeze
  import opened ReplayMeaning

  // ---- the two unions

  ghost predicate Ascending(at: seq<nat>) {
    forall i, j :: 0 <= i < j < |at| ==> at[i] < at[j]
  }

  /** ys are the elements of xs at the positions at, in their order. */
  ghost predicate Picks<T>(xs: seq<T>, at: seq<nat>, ys: seq<T>) {
    && Ascending(at) && |at| == |ys|
    && forall i :: 0 <= i < |at| ==> at[i] < |xs| && ys[i] == xs[at[i]]
  }

  lemma PicksNext<T>(xs: seq<T>, at: seq<nat>, ys: seq<T>, x: T)
    requires Picks(xs, at, ys)
    ensures Picks(xs + [x], at, ys) && Picks(xs + [x], at + [|xs|], ys + [x])
  {}

  predicate HasName(cols: seq<Column>, name: string) {
    exists i :: 0 <= i < |cols| && cols[i].name == name
  }

  /** The base's columns whose names the patch does not have, in the base's order, and then the patch's. */
  ghost predicate PatchWins(base: seq<Column>, patch: seq<Column>, out: seq<Column>) {
    exists at, kept :: Picks(base, at, kept) && out == kept + patch
                       && forall k: nat :: k < |base| ==> (k in at <==> !HasName(patch, base[k].name))
  }

  /** at holds the positions of the columns that are not named in names. */
  ghost predicate NotNamed(cols: seq<Column>, names: set<string>, at: seq<nat>) {
    forall k: nat :: k < |cols| ==> (k in at <==> cols[k].name !in names)
  }

  lemma {:induction false} DropKeeps(cols: seq<Column>, names: set<string>) returns (at: seq<nat>)
    ensures Picks(cols, at, DropColumns(cols, names)) && NotNamed(cols, names, at)
  {
    if cols == [] {
      at := [];
    } else {
      var rest := DropKeeps(cols[1..], names);
      at := Shifted(rest);
      PicksBehind(cols, rest, DropColumns(cols[1..], names));
      ShiftedNotNamed(cols, names, rest);
      if cols[0].name !in names {
        PicksFirst(cols, at, DropColumns(cols[1..], names));
        assert forall k :: k in [0] + at <==> k == 0 || k in at;
        at := [0] + at;
      }
    }
  }

  function Shifted(at: seq<nat>): (moved: seq<nat>)
    ensures |moved| == |at| && forall i :: 0 <= i < |at| ==> moved[i] == at[i] + 1
  {
    seq(|at|, i requires 0 <= i < |at| => at[i] + 1)
  }

  lemma PicksBehind(cols: seq<Column>, at: seq<nat>, ys: seq<Column>)
    requires cols != [] && Picks(cols[1..], at, ys)
    ensures Picks(cols, Shifted(at), ys)
  {}

  lemma PicksFirst(cols: seq<Column>, at: seq<nat>, ys: seq<Column>)
    requires cols != [] && Picks(cols, at, ys) && forall i :: 0 <= i < |at| ==> at[i] > 0
    ensures Picks(cols, [0] + at, [cols[0]] + ys)
  {}

  lemma ShiftedNotNamed(cols: seq<Column>, names: set<string>, at: seq<nat>)
    requires cols != [] && NotNamed(cols[1..], names, at)
    ensures 0 !in Shifted(at)
    ensures forall k: nat :: 0 < k < |cols| ==> (k in Shifted(at) <==> cols[k].name !in names)
  {
    forall k: nat | 0 < k < |cols| ensures k in Shifted(at) <==> cols[k].name !in names {
      assert cols[k] == cols[1..][k - 1];
      InShifted(at, k);
    }
  }

  lemma InShifted(at: seq<nat>, k: nat)
    requires k > 0
    ensures k in Shifted(at) <==> k - 1 in at
  {
    if k - 1 in at {
      var i :| 0 <= i < |at| && at[i] == k - 1;
      assert Shifted(at)[i] == k;
    }
    if k in Shifted(at) {
      var i :| 0 <= i < |at| && Shifted(at)[i] == k;
      assert at[i] == k - 1;
    }
  }

  /** _union_feature_columns: of a name on both sides the patch's column stays. */
  lemma PatchColumnsWin(base: seq<Column>, patch: seq<Column>)
    ensures PatchWins(base, patch, UnionColumns(base, patch))
    ensures forall c :: c in UnionColumns(base, patch) <==> c in patch || (c in base && !HasName(patch, c.name))
  {
    var kept := DropColumns(base, ColumnNames(patch));
    var at := DropKeeps(base, ColumnNames(patch));
    forall name ensures name in ColumnNames(patch) <==> HasName(patch, name) {
      if name in ColumnNames(patch) {
        var c :| c in patch && c.name == name;
      }
    }
    assert forall k: nat :: k < |base| ==> (k in at <==> !HasName(patch, base[k].name));
    WinsMeans(base, patch, at, kept);
  }

  lemma WinsMeans(base: seq<Column>, patch: seq<Column>, at: seq<nat>, kept: seq<Column>)
    requires Picks(base, at, kept)
    requires forall k: nat :: k < |base| ==> (k in at <==> !HasName(patch, base[k].name))
    ensures forall c :: c in kept + patch <==> c in patch || (c in base && !HasName(patch, c.name))
  {
    forall c ensures c in kept <==> c in base && !HasName(patch, c.name) {
      if c in kept {
        var i :| 0 <= i < |kept| && kept[i] == c;
        assert at[i] in at;
      }
      if c in base && !HasName(patch, c.name) {
        var k: nat :| k < |base| && base[k] == c;
        assert k in at;
        var i :| 0 <= i < |at| && at[i] == k;
        assert kept[i] == c;
      }
    }
  }

  /** at holds the positions of first occurrences. */
  ghost predicate FirstAt<T>(xs: seq<T>, at: seq<nat>) {
    forall k: nat :: k < |xs| ==> (k in at <==> xs[k] !in xs[..k])
  }

  /** ys holds the first occurrence of each element of xs, in the order of xs. */
  ghost predicate FirstOccurrences<T>(xs: seq<T>, ys: seq<T>) {
    exists at :: Picks(xs, at, ys) && FirstAt(xs, at)
  }

  lemma {:induction false} DedupKeepsFirst<T>(xs: seq<T>) returns (at: seq<nat>)
    ensures Picks(xs, at, Dedup(xs)) && FirstAt(xs, at)
  {
    if xs == [] {
      at := [];
    } else {
      var init := xs[..|xs| - 1];
      at := DedupKeepsFirst(init);
      at := KeepNext(init, at, xs[|xs| - 1]);
      assert xs == init + [xs[|xs| - 1]];
    }
  }

  lemma KeepNext<T>(xs: seq<T>, at: seq<nat>, x: T) returns (next: seq<nat>)
    requires Picks(xs, at, Dedup(xs)) && FirstAt(xs, at)
    ensures Picks(xs + [x], next, Dedup(xs + [x])) && FirstAt(xs + [x], next)
  {
    next := if x in xs then at else at + [|xs|];
    DedupFacts(xs);
    assert (xs + [x])[..|xs|] == xs;
    PicksNext(xs, at, Dedup(xs), x);
    FirstAtNext(xs, at, x);
  }

  lemma FirstAtNext<T>(xs: seq<T>, at: seq<nat>, x: T)
    requires FirstAt(xs, at) && forall i :: 0 <= i < |at| ==> at[i] < |xs|
    ensures FirstAt(xs + [x], if x in xs then at else at + [|xs|])
  {
    var next := if x in xs then at else at + [|xs|];
    forall k: nat | k < |xs| + 1 ensures k in next <==> (xs + [x])[k] !in (xs + [x])[..k] {
      if k < |xs| {
        assert (xs + [x])[..k] == xs[..k];
      } else {
        assert (xs + [x])[..k] == xs;
      }
    }
  }

  lemma CandidatesOnceInOrder(base: seq<Value>, patch: seq<Value>)
    ensures FirstOccurrences(base + patch, UnionCandidates(base, patch))
  {
    var at := DedupKeepsFirst(base + patch);
  }

  // ---- one patch on a pipeline

  /** The patch's own hook, called by itself. */
  ghost function Own(w: World, patch: Source, h: Hook, args: seq<Value>): Outcome {
    Call(w, patch, HookName(h), args)
  }

  predicate OnTop(p: Pipeline, patch: Source, h: Hook) {
    Defines(patch, h) && HookName(h) !in patch.overrides && ChainDefines(p, h)
  }

  ghost predicate TwoFrames(o: Outcome, train: seq<Column>, valid: seq<Column>) {
    o == Return(Tuple([Frame(train), Frame(valid)]))
  }

  /** Both frames, with the patch's column for every name it has. */
  ghost predicate FramesMerged(o: Outcome, bt: seq<Column>, bv: seq<Column>, pt: seq<Column>, pv: seq<Column>) {
    exists train, valid :: TwoFrames(o, train, valid) && PatchWins(bt, pt, train) && PatchWins(bv, pv, valid)
  }

  lemma LayeredColumns(w: World, p: Pipeline, patch: Source, args: seq<Value>,
                       bt: seq<Column>, bv: seq<Column>, pt: seq<Column>, pv: seq<Column>)
    requires |args| == 4 && OnTop(p, patch, FeatureTransform)
    requires TwoFrames(RunHook(w, p, FeatureTransform, args), bt, bv) && TwoFrames(Own(w, patch, FeatureTransform, args), pt, pv)
    ensures TwoFrames(RunHook(w, Patched(p, patch), FeatureTransform, args), UnionColumns(bt, pt), UnionColumns(bv, pv))
    ensures FramesMerged(RunHook(w, Patched(p, patch), FeatureTransform, args), bt, bv, pt, pv)
  {
    PatchColumnsWin(bt, pt);
    PatchColumnsWin(bv, pv);
  }

  /** The merged class's feature_transform: every column of the patch, and of the base's those under other names. */
  lemma MergedColumns(w: World, base: Source, patch: Source, args: seq<Value>,
                      bt: seq<Column>, bv: seq<Column>, pt: seq<Column>, pv: seq<Column>)
    requires Mergeable(w.builtins, base, patch) && IsComposed(base, patch, FeatureTransform) && |args| == 4
    requires TwoFrames(Own(w, base, FeatureTransform, args), bt, bv) && TwoFrames(Own(w, patch, FeatureTransform, args), pt, pv)
    ensures FramesMerged(RunHook(w, Flat(CoreSource(base, patch)), FeatureTransform, args), bt, bv, pt, pv)
  {
    HookAgrees(w, base, patch, FeatureTransform, args);
    LayeredColumns(w, Flat(base), patch, args, bt, bv, pt, pv);
  }

  /** The merged class's param_candidates: the base's candidates, then the patch's, each once. */
  lemma MergedCandidates(w: World, base: Source, patch: Source, ctx: Value, xs: seq<Value>, ys: seq<Value>)
    requires Mergeable(w.builtins, base, patch) && IsComposed(base, patch, ParamCandidates)
    requires Own(w, base, ParamCandidates, [ctx]) == Return(List(xs)) && Own(w, patch, ParamCandidates, [ctx]) == Return(List(ys))
    ensures var o := RunHook(w, Flat(CoreSource(base, patch)), ParamCandidates, [ctx]);
            o.Return? && o.value.List? && FirstOccurrences(xs + ys, o.value.elements)
  {
    HookAgrees(w, base, patch, ParamCandidates, [ctx]);
    CandidatesOnceInOrder(xs, ys);
  }

  /** The merged class's preprocess: the patch's runs on the two frames the base's returns. */
  lemma MergedPreprocess(w: World, base: Source, patch: Source, args: seq<Value>, train: Value, valid: Value)
    requires Mergeable(w.builtins, base, patch) && IsComposed(base, patch, Preprocess) && |args| == 4
    requires Own(w, base, Preprocess, args) == Return(Tuple([train, valid]))
    ensures RunHook(w, Flat(CoreSource(base, patch)), Preprocess, args) == Own(w, patch, Preprocess, [train, valid, args[2], args[3]])
  {
    HookAgrees(w, base, patch, Preprocess, args);
  }

  /** The merged class's postprocess_predictions: the patch's runs on what the base's returns. */
  lemma MergedPostprocess(w: World, base: Source, patch: Source, preds: Value, ctx: Value, v: Value)
    requires Mergeable(w.builtins, base, patch) && IsComposed(base, patch, PostprocessPredictions)
    requires Own(w, base, PostprocessPredictions, [preds, ctx]) == Return(v)
    ensures RunHook(w, Flat(CoreSource(base, patch)), PostprocessPredictions, [preds, ctx]) == Own(w, patch, PostprocessPredictions, [v, ctx])
  {
    HookAgrees(w, base, patch, PostprocessPredictions, [preds, ctx]);
  }

  /** Where the base's version raises, so does the composed hook, and the patch's version decides nothing. */
  lemma MergedHookRaises(w: World, base: Source, patch: Source, h: Hook, args: seq<Value>, e: Error)
    requires Mergeable(w.builtins, base, patch) && IsComposed(base, patch, h) && |args| == Arity(h)
    requires Own(w, base, h, args) == Raise(e)
    ensures RunHook(w, Flat(CoreSource(base, patch)), h, args) == Raise(e)
  {
    HookAgrees(w, base, patch, h, args);
  }

  /** The patch has the hook to itself: it overrides it, or the hook is never composed. */
  predicate Replaces(patch: Source, h: Hook) {
    Defines(patch, h) && (HookName(h) in patch.overrides || h == BuildModel || h == EnsembleSpec || h == ModelSpec)
  }

  lemma ReplacedInLayers(w: World, p: Pipeline, patch: Source, h: Hook, args: seq<Value>)
    requires |args| == Arity(h) && Replaces(patch, h)
    ensures RunHook(w, Patched(p, patch), h, args) == Own(w, patch, h, args)
  {}

  /** Such a hook is the patch's alone, in the layers over any pipeline and in the merged class. */
  lemma ReplacedHookIsPatchs(w: World, base: Source, patch: Source, h: Hook, args: seq<Value>)
    requires |args| == Arity(h) && Replaces(patch, h) && Mergeable(w.builtins, base, patch)
    ensures RunHook(w, Flat(CoreSource(base, patch)), h, args) == Own(w, patch, h, args)
  {
    assert !Repeats(base, patch, h);
    HookAgrees(w, base, patch, h, args);
    ReplacedInLayers(w, Flat(base), patch, h, args);
  }

  /** A composed hook whose versions return what the combination does not take raises. */
  lemma MergedHookNeedsPairs(w: World, base: Source, patch: Source, h: Hook, args: seq<Value>, v: Value)
    requires Mergeable(w.builtins, base, patch) && IsComposed(base, patch, h) && |args| == 4
    requires (h == Preprocess || h == FeatureTransform) && Own(w, base, h, args) == Return(v)
    requires (v.Tuple? ==> |v.items| != 2) && (v.List? ==> |v.elements| != 2)
    ensures RunHook(w, Flat(CoreSource(base, patch)), h, args) == Raise(UnpackError)
  {
    HookAgrees(w, base, patch, h, args);
  }

  lemma MergedCandidatesNeedLists(w: World, base: Source, patch: Source, ctx: Value, v: Value, u: Value)
    requires Mergeable(w.builtins, base, patch) && IsComposed(base, patch, ParamCandidates)
    requires Own(w, base, ParamCandidates, [ctx]) == Return(v) && Own(w, patch, ParamCandidates, [ctx]) == Return(u)
    requires !v.List? || !u.List?
    ensures RunHook(w, Flat(CoreSource(base, patch)), ParamCandidates, [ctx]) == Raise(HelperError)
  {
    HookAgrees(w, base, patch, ParamCandidates, [ctx]);
  }

  lemma MergedColumnsNeedFrames(w: World, base: Source, patch: Source, args: seq<Value>, bt: Value, bv: Value, pt: Value, pv: Value)
    requires Mergeable(w.builtins, base, patch) && IsComposed(base, patch, FeatureTransform) && |args| == 4
    requires Own(w, base, FeatureTransform, args) == Return(Tuple([bt, bv])) && Own(w, patch, FeatureTransform, args) == Return(Tuple([pt, pv]))
    requires !bt.Frame? || !pt.Frame? || !bv.Frame? || !pv.Frame?
    ensures RunHook(w, Flat(CoreSource(base, patch)), FeatureTransform, args) == Raise(HelperError)
  {
    HookAgrees(w, base, patch, FeatureTransform, args);
  }

  // ---- a whole history

  /** A hook that no promotion defines is BasePipeline's: frames and predictions pass unchanged, there is one empty
      candidate and no spec. (The two opaque ones are the harness's own code.) */
  lemma {:induction false} HookNobodyDefines(w: World, codes: seq<Source>, h: Hook, args: seq<Value>)
    requires |args| == Arity(h) && forall i :: 0 <= i < |codes| ==> !Defines(codes[i], h)
    requires h == EnsembleSpec || h == ModelSpec || Composable(h)
    ensures !ChainDefines(Chain(codes), h)
    ensures RunHook(w, Chain(codes), h, args) ==
            match h
            case Preprocess => Return(Tuple([args[0], args[1]]))
            case PostprocessPredictions => Return(args[0])
            case ParamCandidates => Return(List([Params(map[])]))
            case EnsembleSpec => Return(NoneValue)
            case ModelSpec => Return(NoneValue)
            case _ => w.call(BASE_FEATURES, args)
  {
    if codes != [] {
      var init, code := codes[..|codes| - 1], codes[|codes| - 1];
      HookNobodyDefines(w, init, h, args);
      PromoteSkips(w, Chain(init), code, h, args);
    }
  }

  lemma PromoteSkips(w: World, p: Pipeline, code: Source, h: Hook, args: seq<Value>)
    requires |args| == Arity(h) && !Defines(code, h) && !ChainDefines(p, h)
    ensures !ChainDefines(Promote(p, code), h)
    ensures RunHook(w, Promote(p, code), h, args) == RunHook(w, p, h, args) || RunHook(w, Promote(p, code), h, args) == Return(NoneValue)
    ensures Composable(h) ==> RunHook(w, Promote(p, code), h, args) == RunHook(w, p, h, args)
  {
    assert Composable(h) ==> Suppressors(h) == {};
    forall params: map<string, int>, k ensures Defines(FreezeLayer(params), k) <==> k == ParamCandidates {
      if Defines(FreezeLayer(params), k) { HookNameInjective(k, ParamCandidates); }
    }
    assert forall k :: ParamCandidates !in Suppressors(k);
    if h != ParamCandidates {
      forall params: map<string, int> ensures !Suppresses(FreezeLayer(params), h) {}
    }
  }

  /** c is in some frame, and no later frame has a column of its name. */
  ghost predicate LastWithName(frames: seq<seq<Column>>, c: Column) {
    exists k :: 0 <= k < |frames| && c in frames[k] && forall j :: k < j < |frames| ==> !HasName(frames[j], c.name)
  }

  ghost predicate FromLast(frames: seq<seq<Column>>, out: seq<Column>) {
    forall c :: c in out <==> LastWithName(frames, c)
  }

  lemma LastNext(frames: seq<seq<Column>>, f: seq<Column>, c: Column)
    ensures LastWithName(frames + [f], c) <==> c in f || (LastWithName(frames, c) && !HasName(f, c.name))
  {
    var all := frames + [f];
    if LastWithName(all, c) {
      var k :| 0 <= k < |all| && c in all[k] && forall j :: k < j < |all| ==> !HasName(all[j], c.name);
      if k < |frames| {
        assert all[|frames|] == f;
        assert forall j :: k < j < |frames| ==> all[j] == frames[j];
      }
    }
    if LastWithName(frames, c) && !HasName(f, c.name) {
      var k :| 0 <= k < |frames| && c in frames[k] && forall j :: k < j < |frames| ==> !HasName(frames[j], c.name);
      assert c in all[k] && forall j :: k < j < |all| ==> !HasName(all[j], c.name);
    }
    if c in f { assert c in all[|frames|]; }
  }

  lemma UnionIsFromLast(frames: seq<seq<Column>>, out: seq<Column>, f: seq<Column>)
    requires FromLast(frames, out)
    ensures FromLast(frames + [f], UnionColumns(out, f))
  {
    PatchColumnsWin(out, f);
    forall c ensures c in UnionColumns(out, f) <==> LastWithName(frames + [f], c) {
      LastNext(frames, f, c);
    }
  }

  lemma AloneIsFromLast(frames: seq<seq<Column>>, f: seq<Column>)
    requires forall i :: 0 <= i < |frames| ==> frames[i] == []
    ensures FromLast(frames + [f], f)
  {
    forall c ensures c in f <==> LastWithName(frames + [f], c) {
      LastNext(frames, f, c);
      assert !LastWithName(frames, c);
    }
  }

  /** What the promotions' own feature_transform hooks return; a promotion without one contributes nothing. */
  ghost predicate Transform(w: World, codes: seq<Source>, args: seq<Value>, trains: seq<seq<Column>>, valids: seq<seq<Column>>) {
    && |trains| == |valids| == |codes|
    && forall i :: 0 <= i < |codes| ==>
         && HookName(FeatureTransform) !in codes[i].overrides
         && (if Defines(codes[i], FeatureTransform) then TwoFrames(Own(w, codes[i], FeatureTransform, args), trains[i], valids[i])
             else trains[i] == [] == valids[i])
  }

  /** The frames a history's pipeline returns: of each name the last promotion's column. */
  ghost predicate LastColumns(o: Outcome, trains: seq<seq<Column>>, valids: seq<seq<Column>>) {
    exists train, valid :: TwoFrames(o, train, valid) && FromLast(trains, train) && FromLast(valids, valid)
  }

  /** A freeze has no part in feature_transform. */
  lemma PromoteTransforms(w: World, p: Pipeline, code: Source, args: seq<Value>)
    requires |args| == 4
    ensures RunHook(w, Promote(p, code), FeatureTransform, args) == RunHook(w, Patched(p, code), FeatureTransform, args)
    ensures ChainDefines(Promote(p, code), FeatureTransform) <==> Defines(code, FeatureTransform) || ChainDefines(p, FeatureTransform)
  {
    forall params: map<string, int> ensures !Defines(FreezeLayer(params), FeatureTransform) {
      if Defines(FreezeLayer(params), FeatureTransform) { HookNameInjective(FeatureTransform, ParamCandidates); }
    }
    assert Suppressors(FeatureTransform) == {};
  }

  lemma {:induction false} ChainTransforms(codes: seq<Source>)
    ensures ChainDefines(Chain(codes), FeatureTransform) <==> exists i :: 0 <= i < |codes| && Defines(codes[i], FeatureTransform)
  {
    if codes != [] {
      var init, code := codes[..|codes| - 1], codes[|codes| - 1];
      ChainTransforms(init);
      var w := World({}, (t, vs) => Diverge);
      PromoteTransforms(w, Chain(init), code, [NoneValue, NoneValue, NoneValue, NoneValue]);
      if i :| 0 <= i < |init| && Defines(init[i], FeatureTransform) { assert Defines(codes[i], FeatureTransform); }
    }
  }

  lemma LastColumnsNext(w: World, p: Pipeline, code: Source, args: seq<Value>, trains: seq<seq<Column>>, valids: seq<seq<Column>>,
                        train: seq<Column>, valid: seq<Column>)
    requires |args| == 4 && OnTop(p, code, FeatureTransform)
    requires LastColumns(RunHook(w, p, FeatureTransform, args), trains, valids)
    requires TwoFrames(Own(w, code, FeatureTransform, args), train, valid)
    ensures LastColumns(RunHook(w, Patched(p, code), FeatureTransform, args), trains + [train], valids + [valid])
  {
    var bt, bv :| TwoFrames(RunHook(w, p, FeatureTransform, args), bt, bv) && FromLast(trains, bt) && FromLast(valids, bv);
    LayeredColumns(w, p, code, args, bt, bv, train, valid);
    UnionIsFromLast(trains, bt, train);
    UnionIsFromLast(valids, bv, valid);
  }

  lemma SkippedFrame(frames: seq<seq<Column>>, out: seq<Column>)
    requires FromLast(frames, out)
    ensures FromLast(frames + [[]], out)
  {
    forall c ensures c in out <==> LastWithName(frames + [[]], c) {
      LastNext(frames, [], c);
    }
  }

  lemma FirstColumns(w: World, init: seq<Source>, code: Source, args: seq<Value>, trains: seq<seq<Column>>, valids: seq<seq<Column>>,
                     train: seq<Column>, valid: seq<Column>)
    requires |args| == 4 && Transform(w, init, args, trains, valids) && Defines(code, FeatureTransform)
    requires !ChainDefines(Chain(init), FeatureTransform)
    requires TwoFrames(Own(w, code, FeatureTransform, args), train, valid)
    ensures LastColumns(RunHook(w, Patched(Chain(init), code), FeatureTransform, args), trains + [train], valids + [valid])
  {
    ChainTransforms(init);
    AloneIsFromLast(trains, train);
    AloneIsFromLast(valids, valid);
  }

  lemma SkippedColumns(w: World, p: Pipeline, code: Source, args: seq<Value>, trains: seq<seq<Column>>, valids: seq<seq<Column>>)
    requires |args| == 4 && !Defines(code, FeatureTransform)
    requires LastColumns(RunHook(w, p, FeatureTransform, args), trains, valids)
    ensures LastColumns(RunHook(w, Patched(p, code), FeatureTransform, args), trains + [[]], valids + [[]])
  {
    var bt, bv :| TwoFrames(RunHook(w, p, FeatureTransform, args), bt, bv) && FromLast(trains, bt) && FromLast(valids, bv);
    assert Suppressors(FeatureTransform) == {};
    SkippedFrame(trains, bt);
    SkippedFrame(valids, bv);
  }

  /** One more promotion. */
  lemma ColumnsStep(w: World, init: seq<Source>, code: Source, args: seq<Value>, trains: seq<seq<Column>>, valids: seq<seq<Column>>,
                    train: seq<Column>, valid: seq<Column>)
    requires |args| == 4 && Transform(w, init, args, trains, valids) && HookName(FeatureTransform) !in code.overrides
    requires if Defines(code, FeatureTransform) then TwoFrames(Own(w, code, FeatureTransform, args), train, valid) else train == [] == valid
    requires Defines(code, FeatureTransform) || ChainDefines(Chain(init), FeatureTransform)
    requires ChainDefines(Chain(init), FeatureTransform) ==> LastColumns(RunHook(w, Chain(init), FeatureTransform, args), trains, valids)
    ensures LastColumns(RunHook(w, Promote(Chain(init), code), FeatureTransform, args), trains + [train], valids + [valid])
  {
    PromoteTransforms(w, Chain(init), code, args);
    if !ChainDefines(Chain(init), FeatureTransform) {
      FirstColumns(w, init, code, args, trains, valids, train, valid);
    } else if Defines(code, FeatureTransform) {
      LastColumnsNext(w, Chain(init), code, args, trains, valids, train, valid);
    } else {
      SkippedColumns(w, Chain(init), code, args, trains, valids);
    }
  }

  lemma TransformInit(w: World, codes: seq<Source>, args: seq<Value>, trains: seq<seq<Column>>, valids: seq<seq<Column>>)
    requires codes != [] && Transform(w, codes, args, trains, valids)
    ensures var n := |codes| - 1; Transform(w, codes[..n], args, trains[..n], valids[..n])
  {}

  lemma {:induction false} ColumnsOf(w: World, codes: seq<Source>, args: seq<Value>, trains: seq<seq<Column>>, valids: seq<seq<Column>>)
    requires |args| == 4 && Transform(w, codes, args, trains, valids) && ChainDefines(Chain(codes), FeatureTransform)
    ensures LastColumns(RunHook(w, Chain(codes), FeatureTransform, args), trains, valids)
  {
    var n := |codes| - 1;
    var init := codes[..n];
    TransformInit(w, codes, args, trains, valids);
    if ChainDefines(Chain(init), FeatureTransform) {
      ColumnsOf(w, init, args, trains[..n], valids[..n]);
    }
    PromoteTransforms(w, Chain(init), codes[n], args);
    ColumnsStep(w, init, codes[n], args, trains[..n], valids[..n], trains[n], valids[n]);
    assert trains == trains[..n] + [trains[n]] && valids == valids[..n] + [valids[n]];
  }

  /** In the nested pipeline of any history, feature_transform returns of each column name the last promotion's. */
  lemma ChainColumns(w: World, codes: seq<Source>, args: seq<Value>, trains: seq<seq<Column>>, valids: seq<seq<Column>>)
    requires |args| == 4 && Transform(w, codes, args, trains, valids)
    requires exists i :: 0 <= i < |codes| && Defines(codes[i], FeatureTransform)
    ensures LastColumns(RunHook(w, Chain(codes), FeatureTransform, args), trains, valids)
  {
    ChainTransforms(codes);
    ColumnsOf(w, codes, args, trains, valids);
  }

  /** So does the flat class that a sound history replays into. */
  lemma ReplayedColumns(w: World, codes: seq<Source>, args: seq<Value>, trains: seq<seq<Column>>, valids: seq<seq<Column>>)
    requires ReplaySound(w, codes) && Replay(w.builtins, codes).Success?
    requires |args| == 4 && Transform(w, codes, args, trains, valids)
    requires exists i :: 0 <= i < |codes| && Defines(codes[i], FeatureTransform)
    ensures LastColumns(RunHook(w, Flat(Replay(w.builtins, codes).source), FeatureTransform, args), trains, valids)
  {
    ReplayPreservesMeaning(w, codes);
    ChainColumns(w, codes, args, trains, valids);
  }
}
