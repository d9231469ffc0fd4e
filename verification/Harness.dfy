/** The layered pipeline of evaluator/harness.py: BasePipeline under any number of patches. */
module Harness {
  import opened Names
  import opened Python

  /** Base is BasePipeline(); Patched is PatchedPipeline(base, patch). */
  datatype Pipeline = Base | Patched(base: Pipeline, patch: Source)

  predicate Defines(src: Source, h: Hook) {
    HookName(h) in src.members
  }

  /** _chain_defines: some patch in the chain defines the hook. */
  predicate ChainDefines(p: Pipeline, h: Hook) {
    match p
    case Base => false
    case Patched(base, patch) => Defines(patch, h) || ChainDefines(base, h)
  }

  /** _composes */
  predicate Composes(p: Pipeline, h: Hook)
    requires p.Patched?
  {
    HookName(h) !in p.patch.overrides && ChainDefines(p.base, h)
  }

  const BASE_FEATURES := Imported("evaluator.harness.BasePipeline.feature_transform")
  const BASE_MODEL := Imported("evaluator.harness.BasePipeline.build_model")

  function BaseHook(w: World, h: Hook, args: seq<Value>): Outcome
    requires |args| == Arity(h)
  {
    match h
    case Preprocess => Return(Tuple([args[0], args[1]]))
    case FeatureTransform => w.call(BASE_FEATURES, args)
    case ParamCandidates => Return(List([Params(map[])]))
    case BuildModel => w.call(BASE_MODEL, args)
    case PostprocessPredictions => Return(args[0])
    case EnsembleSpec => Return(NoneValue)
    case ModelSpec => Return(NoneValue)
  }

  /** _HOOK_SUPPRESSORS: defining any of these stops h from being inherited. */
  function Suppressors(h: Hook): set<Hook> {
    match h
    case EnsembleSpec => {BuildModel, ModelSpec}
    case ModelSpec => {BuildModel, EnsembleSpec}
    case _ => {}
  }

  predicate Suppresses(patch: Source, h: Hook) {
    exists k :: k in Suppressors(h) && Defines(patch, k)
  }

  /** The outcome of `a, b = o`, when it does not bind. */
  function Unpacked(o: Outcome): Outcome {
    if o.Return? && Halves(o.value).None? then Raise(UnpackError) else o
  }

  /** base's outcome o, then the patch's hook applied after or beside it. */
  ghost function Combine(w: World, h: Hook, o: Outcome, patch: Source, name: string, args: seq<Value>): Outcome
    requires Composable(h) && |args| == Arity(h)
  {
    match h
    case Preprocess =>
      (match Unpacked(o)
       case Return(v) =>
         var p := Halves(v).value;
         Call(w, patch, name, [p.0, p.1, args[2], args[3]])
       case e => e)
    case PostprocessPredictions =>
      (match o
       case Return(v) => Call(w, patch, name, [v, args[1]])
       case e => e)
    case FeatureTransform =>
      (match Unpacked(o)
       case Return(v) =>
         (match Unpacked(Call(w, patch, name, args))
          case Return(u) => UnionPairs(Halves(v).value, Halves(u).value)
          case e => e)
       case e => e)
    case ParamCandidates =>
      match o
      case Return(v) =>
        (match Call(w, patch, name, args)
         case Return(u) => UnionLists(v, u)
         case e => e)
      case e => e
  }

  function UnionPairs(base: (Value, Value), patch: (Value, Value)): Outcome {
    match UnionFrames(base.0, patch.0)
    case Return(a) =>
      (match UnionFrames(base.1, patch.1)
       case Return(b) => Return(Tuple([a, b]))
       case e => e)
    case e => e
  }

  /** pipeline.h(*args) */
  ghost function RunHook(w: World, p: Pipeline, h: Hook, args: seq<Value>): Outcome
    requires |args| == Arity(h)
    decreases p
  {
    match p
    case Base => BaseHook(w, h, args)
    case Patched(base, patch) =>
      if Defines(patch, h) then
        if Composable(h) && Composes(p, h) then
          Combine(w, h, RunHook(w, base, h, args), patch, HookName(h), args)
        else
          Call(w, patch, HookName(h), args)
      else if Suppresses(patch, h) then Return(NoneValue)
      else RunHook(w, base, h, args)
  }

  // ---- interchangeable pipelines

  /** Same outcome of every hook on every input, and the same answer of _chain_defines wherever a later
      layer can ask. */
  ghost predicate Interchangeable(w: World, p: Pipeline, q: Pipeline) {
    && (forall h, args :: |args| == Arity(h) ==> RunHook(w, p, h, args) == RunHook(w, q, h, args))
    && (forall h :: Composable(h) || h == BuildModel ==> ChainDefines(p, h) == ChainDefines(q, h))
  }

  lemma LayerOnInterchangeable(w: World, p: Pipeline, q: Pipeline, patch: Source)
    requires Interchangeable(w, p, q)
    ensures Interchangeable(w, Patched(p, patch), Patched(q, patch))
  {
    forall h, args | |args| == Arity(h)
      ensures RunHook(w, Patched(p, patch), h, args) == RunHook(w, Patched(q, patch), h, args)
    {
      assert RunHook(w, p, h, args) == RunHook(w, q, h, args);
    }
  }

  // ---- fit_predict's dispatch

  datatype Fitted =
    | Ensemble(spec: Outcome)
    | Registry(spec: Outcome)
    | FreeForm(model: Outcome)

  /** Which model fit_predict fits: ensemble_spec if not None, else model_spec if not None, else build_model.
      A hook that raises is an outcome other than None. */
  ghost function FittedModel(w: World, p: Pipeline, params: Value, ctx: Value): Fitted {
    var e := RunHook(w, p, EnsembleSpec, [ctx]);
    if e != Return(NoneValue) then Ensemble(e)
    else
      var m := RunHook(w, p, ModelSpec, [ctx]);
      if m != Return(NoneValue) then Registry(m)
      else FreeForm(RunHook(w, p, BuildModel, [params, ctx]))
  }

  /** The order of fit_predict's dispatch: an ensemble spec that is there, or raises, decides whatever else there is;
      then a model spec; build_model is only asked when there is neither. */
  lemma DispatchOrder(w: World, p: Pipeline, params: Value, ctx: Value)
    ensures var e, m := RunHook(w, p, EnsembleSpec, [ctx]), RunHook(w, p, ModelSpec, [ctx]);
            && (FittedModel(w, p, params, ctx).Ensemble? <==> e != Return(NoneValue))
            && (FittedModel(w, p, params, ctx).FreeForm? <==> e == Return(NoneValue) && m == Return(NoneValue))
            && (e != Return(NoneValue) ==> FittedModel(w, p, params, ctx).spec == e)
            && (e == Return(NoneValue) && m != Return(NoneValue) ==> FittedModel(w, p, params, ctx).spec == m)
  {}

  predicate ChoosesModel(src: Source) {
    Defines(src, EnsembleSpec) || Defines(src, ModelSpec) || Defines(src, BuildModel)
  }

  /** Specs of the layer return something. */
  ghost predicate SpecsGiven(w: World, src: Source, ctx: Value) {
    && (Defines(src, EnsembleSpec) ==> Call(w, src, HookName(EnsembleSpec), [ctx]) != Return(NoneValue))
    && (Defines(src, ModelSpec) ==> Call(w, src, HookName(ModelSpec), [ctx]) != Return(NoneValue))
  }

  /** The layer's own choice, by precedence. */
  ghost function OwnChoice(w: World, src: Source, params: Value, ctx: Value): Fitted
    requires ChoosesModel(src)
  {
    if Defines(src, EnsembleSpec) then Ensemble(Call(w, src, HookName(EnsembleSpec), [ctx]))
    else if Defines(src, ModelSpec) then Registry(Call(w, src, HookName(ModelSpec), [ctx]))
    else FreeForm(Call(w, src, HookName(BuildModel), [params, ctx]))
  }

  /** The last layer of the chain that defines any model hook, if there is one. */
  function LastChooser(p: Pipeline): (r: Option<Source>)
    ensures r.Some? ==> ChoosesModel(r.value)
    ensures r.None? <==> !ChainDefines(p, EnsembleSpec) && !ChainDefines(p, ModelSpec) && !ChainDefines(p, BuildModel)
  {
    match p
    case Base => None
    case Patched(base, patch) => if ChoosesModel(patch) then Some(patch) else LastChooser(base)
  }

  /** The model fitted is the last chooser's own choice; with no chooser it is BasePipeline's default. */
  lemma {:induction false} LastModelChoiceWins(w: World, p: Pipeline, params: Value, ctx: Value)
    requires LastChooser(p).Some? ==> SpecsGiven(w, LastChooser(p).value, ctx)
    ensures FittedModel(w, p, params, ctx) ==
            match LastChooser(p)
            case Some(src) => OwnChoice(w, src, params, ctx)
            case None => FreeForm(w.call(BASE_MODEL, [params, ctx]))
    decreases p
  {
    if p.Patched? {
      if ChoosesModel(p.patch) {
        assert BuildModel in Suppressors(EnsembleSpec) && BuildModel in Suppressors(ModelSpec);
        assert ModelSpec in Suppressors(EnsembleSpec);
      } else {
        LastModelChoiceWins(w, p.base, params, ctx);
      }
    }
  }
}
