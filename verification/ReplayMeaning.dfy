/** Replaying a promotion history of any length: the flat class stands for the whole nested pipeline. */
module ReplayMeaning {
  import opened Names
  import opened Python
  import opened Harness
  import opened Materialize
  import opened MergeMeaning
  import opened Freeze
  import opened RepeatedHooks

  /** One promotion on top of a pipeline: its patch, then its freeze when it froze something. */
  function Promote(p: Pipeline, code: Source): Pipeline {
    var q := Patched(p, code);
    match ExtractFrozen(code)
    case Some(params) => if ChainDefines(q, ParamCandidates) then Patched(q, FreezeLayer(params)) else q
    case None => q
  }

  /** The nested pipeline of a promotion history, oldest first. */
  function Chain(codes: seq<Source>): Pipeline {
    if codes == [] then Base else Promote(Chain(codes[..|codes| - 1]), codes[|codes| - 1])
  }

  /** Before each merge of the replay, its two sources meet the side conditions. */
  ghost predicate ReplaySound(w: World, codes: seq<Source>) {
    codes != [] ==>
      var init, code := codes[..|codes| - 1], codes[|codes| - 1];
      && ReplaySound(w, init)
      && (Replay(w.builtins, init).Success? ==>
            var best := Replay(w.builtins, init).source;
            && Mergeable(w.builtins, best, code)
            && forall h :: Repeats(best, code, h) ==> Harmless(w, code, h))
  }

  /** A whole merge, freezing included, is one promotion. */
  lemma MergeIsPromotion(w: World, base: Source, code: Source)
    requires Mergeable(w.builtins, base, code)
    requires forall h :: Repeats(base, code, h) ==> Harmless(w, code, h)
    requires Merge(w.builtins, base, code).Success?
    ensures Interchangeable(w, Promote(Flat(base), code), Flat(Merge(w.builtins, base, code).source))
    ensures Closed(Merge(w.builtins, base, code).source.members)
  {
    var core := CoreSource(base, code);
    MergePreservesMeaningExactly(w, base, code);
    LayersKept(base, code);
    assert Merge(w.builtins, base, code).source == Frozen(core, ExtractFrozen(code));
    match ExtractFrozen(code)
    case None =>
    case Some(params) =>
      ChainDefinesAgree(base, code, ParamCandidates);
      if Defines(core, ParamCandidates) {
        FrozenMembers(core, params);
        FreezeOnTop(w, Layered(base, code), core, params);
      } else {
        assert Frozen(core, Some(params)) == core;
      }
  }

  lemma FreezeOnTop(w: World, p: Pipeline, core: Source, params: map<string, int>)
    requires Interchangeable(w, p, Flat(core))
    requires Closed(core.members) && Defines(core, ParamCandidates)
    ensures Interchangeable(w, Patched(p, FreezeLayer(params)), Flat(Frozen(core, Some(params))))
  {
    FreezeMeaning(w, core, params);
    LayerOnInterchangeable(w, p, Flat(core), FreezeLayer(params));
    Chained(w, Patched(p, FreezeLayer(params)), Patched(Flat(core), FreezeLayer(params)), Flat(Frozen(core, Some(params))));
  }

  lemma Chained(w: World, p: Pipeline, q: Pipeline, r: Pipeline)
    requires Interchangeable(w, p, q) && Interchangeable(w, q, r)
    ensures Interchangeable(w, p, r)
  {
    forall h, args | |args| == Arity(h) ensures RunHook(w, p, h, args) == RunHook(w, r, h, args) {
      assert RunHook(w, p, h, args) == RunHook(w, q, h, args);
    }
  }

  lemma PromoteInterchangeable(w: World, p: Pipeline, q: Pipeline, code: Source)
    requires Interchangeable(w, p, q)
    ensures Interchangeable(w, Promote(p, code), Promote(q, code))
  {
    LayerOnInterchangeable(w, p, q, code);
    match ExtractFrozen(code)
    case None =>
    case Some(params) =>
      LayerOnInterchangeable(w, Patched(p, code), Patched(q, code), FreezeLayer(params));
  }

  lemma EmptyClassIsBase(w: World)
    ensures Interchangeable(w, Base, Flat(EMPTY_SOURCE))
  {
    assert forall h :: !Suppresses(EMPTY_SOURCE, h);
  }

  /** Replaying any history, of any length, freezes included, gives a flat class that is interchangeable
      with the nested pipeline over the same patches. */
  lemma {:induction false} ReplayPreservesMeaning(w: World, codes: seq<Source>)
    requires ReplaySound(w, codes)
    requires Replay(w.builtins, codes).Success?
    ensures Interchangeable(w, Chain(codes), Flat(Replay(w.builtins, codes).source))
    ensures Closed(Replay(w.builtins, codes).source.members)
  {
    if codes == [] {
      EmptyClassIsBase(w);
    } else {
      var init, code := codes[..|codes| - 1], codes[|codes| - 1];
      ReplayPreservesMeaning(w, init);
      var best := Replay(w.builtins, init).source;
      PromoteInterchangeable(w, Chain(init), Flat(best), code);
      MergeIsPromotion(w, best, code);
      Chained(w, Chain(codes), Promote(Flat(best), code), Flat(Replay(w.builtins, codes).source));
    }
  }

  /** The model fitted from the flat class of a history is the last chooser's own choice in the nested one. */
  lemma ReplayedModelChoice(w: World, codes: seq<Source>, params: Value, ctx: Value)
    requires ReplaySound(w, codes)
    requires Replay(w.builtins, codes).Success?
    requires LastChooser(Chain(codes)).Some? ==> SpecsGiven(w, LastChooser(Chain(codes)).value, ctx)
    ensures FittedModel(w, Flat(Replay(w.builtins, codes).source), params, ctx) ==
            match LastChooser(Chain(codes))
            case Some(src) => OwnChoice(w, src, params, ctx)
            case None => FreeForm(w.call(BASE_MODEL, [params, ctx]))
  {
    ReplayPreservesMeaning(w, codes);
    LastModelChoiceWins(w, Chain(codes), params, ctx);
    var p, q := Chain(codes), Flat(Replay(w.builtins, codes).source);
    assert RunHook(w, p, EnsembleSpec, [ctx]) == RunHook(w, q, EnsembleSpec, [ctx]);
    assert RunHook(w, p, ModelSpec, [ctx]) == RunHook(w, q, ModelSpec, [ctx]);
    assert RunHook(w, p, BuildModel, [params, ctx]) == RunHook(w, q, BuildModel, [params, ctx]);
  }

  /** The last promotion of a history that chooses a model is the chain's last chooser: freezes do not count. */
  lemma {:induction false} LastChooserOfChain(codes: seq<Source>)
    ensures match LastChooser(Chain(codes))
            case Some(src) => exists i :: 0 <= i < |codes| && codes[i] == src && ChoosesModel(src) &&
                                forall j :: i < j < |codes| ==> !ChoosesModel(codes[j])
            case None => forall j :: 0 <= j < |codes| ==> !ChoosesModel(codes[j])
  {
    if codes != [] {
      var n := |codes| - 1;
      var init, code := codes[..n], codes[n];
      LastChooserOfChain(init);
      forall params ensures !ChoosesModel(FreezeLayer(params)) {
        forall h | Defines(FreezeLayer(params), h) ensures h == ParamCandidates {
          HookNameInjective(h, ParamCandidates);
        }
      }
      if ChoosesModel(code) {
        assert codes[n] == code;
      } else if LastChooser(Chain(init)).Some? {
        var src := LastChooser(Chain(init)).value;
        var i :| 0 <= i < n && init[i] == src && forall j :: i < j < n ==> !ChoosesModel(init[j]);
        assert codes[i] == src;
        forall j | i < j < |codes| ensures !ChoosesModel(codes[j]) {
          if j < n { assert codes[j] == init[j]; }
        }
      } else {
        forall j | 0 <= j < |codes| ensures !ChoosesModel(codes[j]) {
          if j < n { assert codes[j] == init[j]; }
        }
      }
    }
  }
}
