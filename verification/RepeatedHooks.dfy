/** A hook that base and patch define with the same text. The merge keeps one copy
    (cycle/materialize.py:227-231); the layered pipeline runs both. */
module RepeatedHooks {
  import opened Names
  import opened Python
  import opened Harness
  import opened Materialize
  import opened MergeMeaning
  import opened Freeze

  /** What is already present adds nothing. */
  lemma {:induction false} DedupAbsorbs(xs: seq<Value>, ys: seq<Value>)
    requires forall y :: y in ys ==> y in xs
    ensures Dedup(xs + ys) == Dedup(xs)
  {
    if ys == [] {
      assert xs + ys == xs;
    } else {
      var init := ys[..|ys| - 1];
      DedupAbsorbs(xs, init);
      DedupFacts(xs);
      assert (xs + ys)[..|xs + ys| - 1] == xs + init;
      assert (xs + ys)[|xs + ys| - 1] == ys[|ys| - 1];
      assert ys[|ys| - 1] in ys;
    }
  }

  lemma {:induction false} DropAll(cols: seq<Column>, names: set<string>)
    requires forall c :: c in cols ==> c.name in names
    ensures DropColumns(cols, names) == []
  {
    if cols != [] {
      DropAll(cols[1..], names);
    }
  }

  lemma UnionWithItself(cols: seq<Column>)
    ensures UnionColumns(cols, cols) == cols
  {
    DropAll(cols, ColumnNames(cols));
  }

  /** The hook's outcome `once` would not change if the hook ran a second time the way its layer would
      run it: a union of it with itself is itself, or a second application returns it again. */
  ghost predicate Stable(w: World, src: Source, h: Hook, args: seq<Value>, once: Outcome)
    requires Composable(h) && |args| == Arity(h)
  {
    once.Return? ==>
      match h
      case FeatureTransform =>
        once.value.Tuple? && |once.value.items| == 2 && once.value.items[0].Frame? && once.value.items[1].Frame?
      case ParamCandidates =>
        once.value.List? && NoDuplicates(once.value.elements)
      case Preprocess =>
        Halves(once.value).Some? &&
        Call(w, src, HookName(h), [Halves(once.value).value.0, Halves(once.value).value.1, args[2], args[3]]) == once
      case _ =>
        Call(w, src, HookName(h), [once.value, args[1]]) == once
  }

  /** Both versions of a repeated hook do the same, and the merged class does it once. */
  lemma RepeatedHook(w: World, base: Source, patch: Source, h: Hook, args: seq<Value>)
    requires Mergeable(w.builtins, base, patch) && Repeats(base, patch, h) && |args| == Arity(h)
    ensures var once := Call(w, patch, HookName(h), args);
            && RunHook(w, Layered(base, patch), h, args) == Combine(w, h, once, patch, HookName(h), args)
            && RunHook(w, Flat(CoreSource(base, patch)), h, args) == once
  {
    HookPlaces(base, patch, h);
    BaseMethodMoves(w, base, patch, HookName(h), HookName(h), args);
    PatchMethodMoves(w, base, patch, HookName(h), HookName(h), args);
    assert RunHook(w, Patched(Base, base), h, args) == Call(w, base, HookName(h), args);
  }

  lemma CombineOfStable(w: World, src: Source, h: Hook, args: seq<Value>, once: Outcome)
    requires Composable(h) && |args| == Arity(h)
    requires Call(w, src, HookName(h), args) == once
    ensures Combine(w, h, once, src, HookName(h), args) == once <==> Stable(w, src, h, args, once)
  {
    if once.Return? {
      match h
      case FeatureTransform =>
        if Halves(once.value).Some? {
          var p := Halves(once.value).value;
          if p.0.Frame? { UnionWithItself(p.0.columns); }
          if p.1.Frame? { UnionWithItself(p.1.columns); }
        }
      case ParamCandidates =>
        if once.value.List? {
          DedupAbsorbs(once.value.elements, once.value.elements);
          DedupFacts(once.value.elements);
        }
      case Preprocess =>
      case PostprocessPredictions =>
    }
  }

  /** For a repeated hook the merged class and the layers agree exactly on the inputs where running the
      hook again changes nothing. */
  lemma RepeatedHookAgreesExactly(w: World, base: Source, patch: Source, h: Hook, args: seq<Value>)
    requires Mergeable(w.builtins, base, patch) && Repeats(base, patch, h) && |args| == Arity(h)
    ensures RunHook(w, Layered(base, patch), h, args) == RunHook(w, Flat(CoreSource(base, patch)), h, args) <==>
            Stable(w, patch, h, args, Call(w, patch, HookName(h), args))
  {
    RepeatedHook(w, base, patch, h, args);
    CombineOfStable(w, patch, h, args, Call(w, patch, HookName(h), args));
  }

  ghost predicate Harmless(w: World, patch: Source, h: Hook)
    requires Composable(h)
  {
    forall args :: |args| == Arity(h) ==> Stable(w, patch, h, args, Call(w, patch, HookName(h), args))
  }

  lemma HookAgreesExactly(w: World, base: Source, patch: Source, h: Hook, args: seq<Value>)
    requires Mergeable(w.builtins, base, patch) && |args| == Arity(h)
    ensures RunHook(w, Layered(base, patch), h, args) == RunHook(w, Flat(CoreSource(base, patch)), h, args) <==>
            (Repeats(base, patch, h) ==> Stable(w, patch, h, args, Call(w, patch, HookName(h), args)))
  {
    if Repeats(base, patch, h) {
      RepeatedHookAgreesExactly(w, base, patch, h, args);
    } else {
      HookAgrees(w, base, patch, h, args);
    }
  }

  lemma ExactlyWhenHarmless(w: World, base: Source, patch: Source, p: Pipeline, q: Pipeline)
    requires forall h, args :: |args| == Arity(h) ==>
               (RunHook(w, p, h, args) == RunHook(w, q, h, args) <==>
                (Repeats(base, patch, h) ==> Stable(w, patch, h, args, Call(w, patch, HookName(h), args))))
    requires forall h :: Composable(h) || h == BuildModel ==> ChainDefines(p, h) == ChainDefines(q, h)
    ensures Interchangeable(w, p, q) <==> forall h :: Repeats(base, patch, h) ==> Harmless(w, patch, h)
  {
    if Interchangeable(w, p, q) {
      forall h | Repeats(base, patch, h) ensures Harmless(w, patch, h) {
        forall args | |args| == Arity(h) ensures Stable(w, patch, h, args, Call(w, patch, HookName(h), args)) {
          assert RunHook(w, p, h, args) == RunHook(w, q, h, args);
        }
      }
    }
  }

  /** The merge preserves meaning exactly when every hook the two sources repeat is harmless. */
  lemma MergePreservesMeaningExactly(w: World, base: Source, patch: Source)
    requires Mergeable(w.builtins, base, patch)
    ensures Interchangeable(w, Layered(base, patch), Flat(CoreSource(base, patch))) <==>
            forall h :: Repeats(base, patch, h) ==> Harmless(w, patch, h)
  {
    forall h, args | |args| == Arity(h)
      ensures RunHook(w, Layered(base, patch), h, args) == RunHook(w, Flat(CoreSource(base, patch)), h, args) <==>
              (Repeats(base, patch, h) ==> Stable(w, patch, h, args, Call(w, patch, HookName(h), args)))
    {
      HookAgreesExactly(w, base, patch, h, args);
    }
    forall h | Composable(h) || h == BuildModel
      ensures ChainDefines(Layered(base, patch), h) == ChainDefines(Flat(CoreSource(base, patch)), h)
    {
      ChainDefinesAgree(base, patch, h);
    }
    ExactlyWhenHarmless(w, base, patch, Layered(base, patch), Flat(CoreSource(base, patch)));
  }

  /** A constant single candidate, as freezing leaves it, may be repeated. */
  lemma FrozenRepeatHarmless(w: World, patch: Source, params: map<string, int>)
    requires Defines(patch, ParamCandidates) && patch.members[HookName(ParamCandidates)] == FrozenMethod(params)
    ensures Harmless(w, patch, ParamCandidates)
  {
    forall args | |args| == Arity(ParamCandidates)
      ensures Stable(w, patch, ParamCandidates, args, Call(w, patch, HookName(ParamCandidates), args))
    {
      FrozenCall(w, patch, params, args);
    }
  }
}
