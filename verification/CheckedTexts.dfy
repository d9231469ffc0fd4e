/** When a merge passes the undefined-name check, in terms of the two texts alone, freeze marks and async defs
    included (cycle/materialize.py, evaluator/contract.py). */
module CheckedTexts {
  import opened Names
  import opened Python
  import opened Harness
  import opened Materialize
  import opened MergeMeaning
  import opened Freeze
  import opened Toplevel
  import opened Checked

  datatype Side = OfBase | OfPatch

  function On(base: Source, patch: Source, side: Side): Source {
    if side.OfBase? then base else patch
  }

  function TextOf(base: Source, patch: Source, side: Side, n: string): Method
    requires n in On(base, patch, side).members
  {
    On(base, patch, side).members[n]
  }

  // ---- what of the two texts is left after the merge

  ghost predicate ComposedName(base: Source, patch: Source, n: string) {
    exists h :: IsComposed(base, patch, h) && HookName(h) == n
  }

  /** A patch method, or a base method that the patch neither suppresses nor replaces: a composed hook keeps
      both. */
  ghost predicate Survives(base: Source, patch: Source, side: Side, n: string) {
    && n in On(base, patch, side).members
    && (side.OfBase? ==> n !in SuppressedNames(patch) && (n in patch.members ==> ComposedName(base, patch, n)))
  }

  predicate Freezes(base: Source, patch: Source) {
    ExtractFrozen(patch).Some? && (Defines(base, ParamCandidates) || Defines(patch, ParamCandidates))
  }

  /** r is referred to from kept by a method other than param_candidates. */
  ghost predicate CalledFrom(base: Source, patch: Source, kept: set<string>, r: string) {
    exists side, m :: m in kept && m != HookName(ParamCandidates) && Survives(base, patch, side, m)
                      && r in Refs(TextOf(base, patch, side, m).body)
  }

  /** Every candidates helper of kept is called from kept. */
  ghost predicate SelfSupporting(base: Source, patch: Source, kept: set<string>) {
    forall r :: r in kept && IsCandidatesHelper(r) ==> CalledFrom(base, patch, kept, r)
  }

  ghost predicate StaysAlive(base: Source, patch: Source, n: string) {
    exists kept :: n in kept && SelfSupporting(base, patch, kept)
  }

  /** A freeze replaces param_candidates and drops the candidates helpers that nothing else keeps alive. */
  ghost predicate Remains(base: Source, patch: Source, side: Side, n: string) {
    && Survives(base, patch, side, n)
    && (Freezes(base, patch) ==> n != HookName(ParamCandidates) && (IsCandidatesHelper(n) ==> StaysAlive(base, patch, n)))
  }

  /** Some composed hook, other than a frozen one, has a version that looks for the hook's bare name. */
  predicate HookNamesItself(base: Source, patch: Source, known: set<string>) {
    exists h :: IsComposed(base, patch, h) && (Freezes(base, patch) ==> h != ParamCandidates)
                && (SeeksOwn(base, h, known) || SeeksOwn(patch, h, known))
  }

  /** Some method that remains looks for a lost name. */
  ghost predicate LostIsSought(base: Source, patch: Source, lost: set<string>, known: set<string>) {
    exists side, n, g :: Remains(base, patch, side, n) && g in Sought(n, TextOf(base, patch, side, n)) && g in lost && g !in known
  }

  /** No method calls a candidates helper that neither text has. */
  ghost predicate NoStrayHelper(base: Source, patch: Source) {
    forall side, n, r :: n in On(base, patch, side).members && r in Refs(TextOf(base, patch, side, n).body) && IsCandidatesHelper(r) ==>
                           !Fresh(base, patch, r)
  }

  // ---- the fresh names of the merge

  /** n holds one of h's versions; it looks generated, and like a candidates helper exactly for param_candidates. */
  ghost predicate HoldsVersion(special: iset<string>, base: Source, patch: Source, h: Hook, n: string, m: Method) {
    && IsComposed(base, patch, h)
    && (m == base.members[HookName(h)] || m == patch.members[HookName(h)])
    && Generated(n) && (n in special <==> h == ParamCandidates)
  }

  ghost predicate SomeVersion(special: iset<string>, base: Source, patch: Source, n: string, m: Method) {
    exists h :: HoldsVersion(special, base, patch, h, n, m)
  }

  /** Fresh members are versions, and only param_candidates refers to the fresh candidates helpers. */
  ghost predicate Tidy(special: iset<string>, base: Source, patch: Source, members: map<string, Method>) {
    && (forall n :: n in members && Fresh(base, patch, n) ==> SomeVersion(special, base, patch, n, members[n]))
    && (forall m, r :: m in members && r in Refs(members[m].body) && r in special && Fresh(base, patch, r) ==> m == HookName(ParamCandidates))
  }

  ghost predicate NoStray(special: iset<string>, base: Source, patch: Source, m: Method) {
    forall r :: r in Refs(m.body) && r in special ==> !Fresh(base, patch, r)
  }

  lemma StemIsHelper(h: Hook, existing: set<string>)
    requires Composable(h)
    ensures UniqueName(PrevStem(h), existing) in CandidatesHelpers() <==> h == ParamCandidates
    ensures UniqueName(NewStem(h), existing) in CandidatesHelpers() <==> h == ParamCandidates
    ensures Generated(UniqueName(PrevStem(h), existing)) && Generated(UniqueName(NewStem(h), existing))
  {
    if h == ParamCandidates {
      GeneratedCandidatesMatch(existing);
    } else {
      OtherStem(h, "_prev", existing);
      OtherStem(h, "_new", existing);
    }
  }

  lemma OtherStem(h: Hook, tail: string, existing: set<string>)
    requires Composable(h) && h != ParamCandidates
    ensures !IsCandidatesHelper(UniqueName("_" + HookName(h) + tail, existing))
  {
    var stem := "_" + HookName(h) + tail;
    var n := UniqueName(stem, existing);
    assert stem <= n;
    assert n[1] == stem[1] == HookName(h)[0] && n[2] == stem[2] == HookName(h)[1];
    assert n[1] != 'p' || n[2] != 'a';
    HelperLetters(n);
  }

  lemma HelperLetters(n: string)
    ensures IsCandidatesHelper(n) ==> |n| > 2 && n[1] == 'p' && n[2] == 'a'
  {
    if IsCandidatesHelper(n) {
      var stem := if MatchesStem("_param_candidates_prev", n) then "_param_candidates_prev" else "_param_candidates_new";
      assert n[..|stem|] == stem;
      assert n[1] == stem[1] && n[2] == stem[2];
    }
  }

  lemma {:induction false} ComposeTidy(k: nat, base: Source, patch: Source)
    requires k <= |COMPOSE_ORDER| && NoStrayHelper(base, patch)
    ensures Tidy(CandidatesHelpers(), base, patch, ComposeFirst(k, base, patch).members)
  {
    if k == 0 {
      StartTidy(base, patch);
    } else {
      ComposeTidy(k - 1, base, patch);
      var h, st := COMPOSE_ORDER[k - 1], ComposeFirst(k - 1, base, patch);
      if IsComposed(base, patch, h) {
        ComposeFirstLaid(k - 1, base, patch);
        var prev := UniqueName(PrevStem(h), st.existing);
        var newer := UniqueName(NewStem(h), st.existing + {prev});
        StemIsHelper(h, st.existing);
        StemIsHelper(h, st.existing + {prev});
        WrapperRefs(h, prev, newer);
        HooksNotStray(base, patch, h);
        PlacedTidy(CandidatesHelpers(), base, patch, h, st.members, prev, newer, Wrapper(h, prev, newer));
      }
    }
  }

  lemma StartTidy(base: Source, patch: Source)
    requires NoStrayHelper(base, patch)
    ensures Tidy(CandidatesHelpers(), base, patch, ComposeFirst(0, base, patch).members)
  {
    var plain := base.members + patch.members;
    assert ComposeFirst(0, base, patch).members == plain;
    forall m, r | m in plain && r in Refs(plain[m].body) && IsCandidatesHelper(r) ensures !Fresh(base, patch, r) {
      var side := if m in patch.members then OfPatch else OfBase;
      assert r in Refs(TextOf(base, patch, side, m).body);
    }
  }

  lemma HooksNotStray(base: Source, patch: Source, h: Hook)
    requires NoStrayHelper(base, patch) && IsComposed(base, patch, h)
    ensures NoStray(CandidatesHelpers(), base, patch, base.members[HookName(h)])
    ensures NoStray(CandidatesHelpers(), base, patch, patch.members[HookName(h)])
  {
    assert TextOf(base, patch, OfBase, HookName(h)) == base.members[HookName(h)];
    assert TextOf(base, patch, OfPatch, HookName(h)) == patch.members[HookName(h)];
  }

  lemma PlacedTidy(special: iset<string>, base: Source, patch: Source, h: Hook, members: map<string, Method>,
                   prev: string, newer: string, wrapper: Method)
    requires Tidy(special, base, patch, members) && IsComposed(base, patch, h)
    requires prev in special <==> h == ParamCandidates
    requires newer in special <==> h == ParamCandidates
    requires Generated(prev) && Generated(newer) && Refs(wrapper.body) == {prev, newer}
    requires NoStray(special, base, patch, base.members[HookName(h)]) && NoStray(special, base, patch, patch.members[HookName(h)])
    ensures Tidy(special, base, patch, members[prev := base.members[HookName(h)]][newer := patch.members[HookName(h)]][HookName(h) := wrapper])
  {
    PlacedVersions(special, base, patch, h, members, prev, newer, wrapper);
  }

  lemma PlacedVersions(special: iset<string>, base: Source, patch: Source, h: Hook, members: map<string, Method>,
                       prev: string, newer: string, wrapper: Method)
    requires Tidy(special, base, patch, members) && IsComposed(base, patch, h)
    requires prev in special <==> h == ParamCandidates
    requires newer in special <==> h == ParamCandidates
    requires Generated(prev) && Generated(newer)
    ensures var all := members[prev := base.members[HookName(h)]][newer := patch.members[HookName(h)]][HookName(h) := wrapper];
            forall n :: n in all && Fresh(base, patch, n) ==> SomeVersion(special, base, patch, n, all[n])
  {
    var all := members[prev := base.members[HookName(h)]][newer := patch.members[HookName(h)]][HookName(h) := wrapper];
    forall n | n in all && Fresh(base, patch, n) ensures SomeVersion(special, base, patch, n, all[n]) {
      if n == prev || n == newer {
        assert HoldsVersion(special, base, patch, h, n, all[n]);
      }
    }
  }

  lemma CoreTidy(base: Source, patch: Source)
    requires NoStrayHelper(base, patch)
    ensures Tidy(CandidatesHelpers(), base, patch, CoreMembers(base, patch))
  {
    ComposeTidy(|COMPOSE_ORDER|, base, patch);
  }

  // ---- the members before freezing

  /** Where a surviving method sits: under its own name, or, for a composed hook, under a fresh one. */
  ghost predicate Sits(base: Source, patch: Source, side: Side, n: string, key: string, members: map<string, Method>)
    requires n in On(base, patch, side).members
  {
    && key in members && members[key] == TextOf(base, patch, side, n)
    && (if ComposedName(base, patch, n) then Fresh(base, patch, key) && !IsHookName(key) && Generated(key) else key == n)
  }

  lemma HookOf(n: string) returns (h: Hook)
    requires IsHookName(n)
    ensures HookName(h) == n
  {
    h := if n == HookName(Preprocess) then Preprocess
         else if n == HookName(FeatureTransform) then FeatureTransform
         else if n == HookName(ParamCandidates) then ParamCandidates
         else if n == HookName(BuildModel) then BuildModel
         else if n == HookName(PostprocessPredictions) then PostprocessPredictions
         else if n == HookName(EnsembleSpec) then EnsembleSpec
         else ModelSpec;
  }

  /** Outside the composed hooks' names the merge holds the patch's method, or else the base's. */
  lemma PlainPlaces(base: Source, patch: Source, n: string)
    requires !ComposedName(base, patch, n) && !Fresh(base, patch, n)
    ensures n in CoreMembers(base, patch) <==> n !in SuppressedNames(patch)
    ensures n in CoreMembers(base, patch) ==>
              CoreMembers(base, patch)[n] == if n in patch.members then patch.members[n] else base.members[n]
  {
    ComposeFirstLaid(|COMPOSE_ORDER|, base, patch);
    var plain := base.members + patch.members;
    var all := ComposeAll(base, patch).members;
    if IsHookName(n) {
      var h := HookOf(n);
      assert !IsComposed(base, patch, h);
      assert SameAt(all, plain, HookName(h));
    } else {
      assert SameAt(all, plain, n);
    }
  }

  lemma NotSuppressed(patch: Source, n: string)
    requires n in patch.members
    ensures n !in SuppressedNames(patch)
  {}

  lemma SurvivorSits(base: Source, patch: Source, side: Side, n: string) returns (key: string)
    requires NoStrayHelper(base, patch) && Survives(base, patch, side, n)
    ensures Sits(base, patch, side, n, key, CoreMembers(base, patch))
    ensures ComposedName(base, patch, n) && n != HookName(ParamCandidates) ==> !IsCandidatesHelper(key)
  {
    if ComposedName(base, patch, n) {
      var h :| IsComposed(base, patch, h) && HookName(h) == n;
      HookPlaces(base, patch, h);
      var prev, newer :| ComposedAs(CoreMembers(base, patch), base, patch, h, prev, newer);
      key := if side.OfBase? then prev else newer;
      ComposedNotHelper(base, patch, h, prev, newer);
    } else {
      if n in patch.members { NotSuppressed(patch, n); }
      PlainPlaces(base, patch, n);
      key := n;
    }
  }

  /** A version of another hook under a fresh name is not taken for a candidates helper. */
  lemma ComposedNotHelper(base: Source, patch: Source, h: Hook, prev: string, newer: string)
    requires NoStrayHelper(base, patch) && IsComposed(base, patch, h)
    requires ComposedAs(CoreMembers(base, patch), base, patch, h, prev, newer)
    ensures Generated(prev) && Generated(newer)
    ensures h != ParamCandidates ==> !IsCandidatesHelper(prev) && !IsCandidatesHelper(newer)
  {
    var core := CoreMembers(base, patch);
    CoreTidy(base, patch);
    assert SomeVersion(CandidatesHelpers(), base, patch, prev, core[prev]);
    assert SomeVersion(CandidatesHelpers(), base, patch, newer, core[newer]);
    WrapperRefs(h, prev, newer);
    if h != ParamCandidates {
      if HookName(h) == HookName(ParamCandidates) { HookNameInjective(h, ParamCandidates); }
      assert prev in Refs(core[HookName(h)].body) && newer in Refs(core[HookName(h)].body);
    }
  }

  /** A member that is neither fresh nor a wrapper is a surviving method under its own name. */
  lemma PlainSurvives(base: Source, patch: Source, key: string) returns (side: Side)
    requires key in CoreMembers(base, patch) && !Fresh(base, patch, key) && !ComposedName(base, patch, key)
    ensures Survives(base, patch, side, key) && CoreMembers(base, patch)[key] == TextOf(base, patch, side, key)
  {
    PlainPlaces(base, patch, key);
    side := if key in patch.members then OfPatch else OfBase;
  }

  /** A fresh member is a surviving version of a composed hook. */
  lemma FreshSurvives(base: Source, patch: Source, key: string) returns (side: Side, h: Hook)
    requires NoStrayHelper(base, patch) && key in CoreMembers(base, patch) && Fresh(base, patch, key)
    ensures IsComposed(base, patch, h) && Survives(base, patch, side, HookName(h))
    ensures CoreMembers(base, patch)[key] == TextOf(base, patch, side, HookName(h))
    ensures IsCandidatesHelper(key) <==> h == ParamCandidates
    ensures Generated(key)
  {
    CoreTidy(base, patch);
    assert SomeVersion(CandidatesHelpers(), base, patch, key, CoreMembers(base, patch)[key]);
    h :| HoldsVersion(CandidatesHelpers(), base, patch, h, key, CoreMembers(base, patch)[key]);
    side := if CoreMembers(base, patch)[key] == base.members[HookName(h)] then OfBase else OfPatch;
    assert ComposedName(base, patch, HookName(h));
    NotSuppressed(patch, HookName(h));
  }

  lemma WrapperIs(base: Source, patch: Source, key: string)
    requires ComposedName(base, patch, key)
    ensures key in CoreMembers(base, patch)
    ensures forall r :: r in Refs(CoreMembers(base, patch)[key].body) ==> Fresh(base, patch, r)
    ensures Globals(CoreMembers(base, patch)[key].body) <= ComposeAll(base, patch).imports.Keys
  {
    var h :| IsComposed(base, patch, h) && HookName(h) == key;
    HookPlaces(base, patch, h);
    var prev, newer :| ComposedAs(CoreMembers(base, patch), base, patch, h, prev, newer);
    WrapperRefs(h, prev, newer);
    HelpersAreImported(base, patch, h);
  }

  lemma HelpersAreImported(base: Source, patch: Source, h: Hook)
    requires IsComposed(base, patch, h)
    ensures HelperImports(h).Keys <= ComposeAll(base, patch).imports.Keys
  {
    ComposeFirstLaid(|COMPOSE_ORDER|, base, patch);
    InOrder(h);
    assert COMPOSE_ORDER[..|COMPOSE_ORDER|] == COMPOSE_ORDER;
  }

  // ---- the members after freezing

  function Changed(base: Source, patch: Source): map<string, Method>
    requires ExtractFrozen(patch).Some?
  {
    CoreMembers(base, patch)[HookName(ParamCandidates) := FrozenMethod(ExtractFrozen(patch).value)]
  }

  function FinalMembers(base: Source, patch: Source): map<string, Method> {
    Frozen(CoreSource(base, patch), ExtractFrozen(patch)).members
  }

  lemma FinalMembersAre(base: Source, patch: Source)
    ensures FinalMembers(base, patch) == if Freezes(base, patch) then Prune(Changed(base, patch)) else CoreMembers(base, patch)
  {
    HookPlaces(base, patch, ParamCandidates);
    assert Suppressors(ParamCandidates) == {};
  }

  lemma FrozenRefersToNothing(params: map<string, int>)
    ensures Refs(FrozenMethod(params).body) == {} && Globals(FrozenMethod(params).body) == {}
  {}

  /** The members that stand for kept after the merge: its own names, and fresh ones that are no helpers. */
  function Image(base: Source, patch: Source, kept: set<string>): set<string>
    requires ExtractFrozen(patch).Some?
  {
    set key | key in Changed(base, patch).Keys && (key in kept || (Fresh(base, patch, key) && !IsCandidatesHelper(key)))
  }

  lemma ImageSupported(base: Source, patch: Source, kept: set<string>)
    requires NoStrayHelper(base, patch) && ExtractFrozen(patch).Some? && SelfSupporting(base, patch, kept)
    ensures Supported(Changed(base, patch), Image(base, patch, kept))
  {
    var changed, image := Changed(base, patch), Image(base, patch, kept);
    forall r | r in image && IsCandidatesHelper(r) ensures ReferredFrom(changed, image, r) {
      assert CalledFrom(base, patch, kept, r);
      var side, m :| m in kept && m != HookName(ParamCandidates) && Survives(base, patch, side, m)
                     && r in Refs(TextOf(base, patch, side, m).body);
      var key := SurvivorSits(base, patch, side, m);
      if key == HookName(ParamCandidates) { HookNameIsHookName(ParamCandidates); }
      assert key in image && r in Refs(changed[key].body);
    }
  }

  /** A helper that something keeps alive is not pruned. */
  lemma AliveIsKept(base: Source, patch: Source, n: string)
    requires NoStrayHelper(base, patch) && ExtractFrozen(patch).Some?
    requires StaysAlive(base, patch, n) && n in Changed(base, patch)
    ensures n in Prune(Changed(base, patch))
  {
    var kept :| n in kept && SelfSupporting(base, patch, kept);
    ImageSupported(base, patch, kept);
    SupportedIsKept(Changed(base, patch), Image(base, patch, kept));
    assert n in Image(base, patch, kept);
  }

  /** The fresh candidates helpers do not survive the freeze: only the method it replaces refers to them. */
  lemma FreshHelperGone(base: Source, patch: Source, key: string)
    requires NoStrayHelper(base, patch) && ExtractFrozen(patch).Some?
    requires Fresh(base, patch, key) && IsCandidatesHelper(key)
    ensures key !in Prune(Changed(base, patch))
  {
    var changed := Changed(base, patch);
    if key in Prune(changed) {
      LeftIsSupported(changed);
      assert ReferredFrom(changed, Prune(changed).Keys, key);
      CoreTidy(base, patch);
      FrozenRefersToNothing(ExtractFrozen(patch).value);
    }
  }

  /** The caller of a helper that is left, in the texts. */
  lemma CallerSurvives(base: Source, patch: Source, m: string, r: string) returns (side: Side, n: string)
    requires NoStrayHelper(base, patch) && ExtractFrozen(patch).Some?
    requires m in Prune(Changed(base, patch)) && m in Changed(base, patch) && r in Refs(Changed(base, patch)[m].body) && !Fresh(base, patch, r)
    ensures Survives(base, patch, side, n) && n != HookName(ParamCandidates)
    ensures r in Refs(TextOf(base, patch, side, n).body)
    ensures n in Prune(Changed(base, patch))
  {
    var changed := Changed(base, patch);
    FrozenRefersToNothing(ExtractFrozen(patch).value);
    PruneKeeps(changed);
    assert m in CoreMembers(base, patch) && changed[m] == CoreMembers(base, patch)[m];
    if Fresh(base, patch, m) {
      var h;
      side, h := FreshSurvives(base, patch, m);
      n := HookName(h);
      if h == ParamCandidates { FreshHelperGone(base, patch, m); }
      if n == HookName(ParamCandidates) { HookNameInjective(h, ParamCandidates); }
      assert ComposedName(base, patch, n);
      WrapperIs(base, patch, n);
      HookNameIsHookName(h);
      if IsCandidatesHelper(n) { CandidatesHelperIsNoHook(n); }
      assert n in changed;
    } else {
      if ComposedName(base, patch, m) { WrapperIs(base, patch, m); }
      side := PlainSurvives(base, patch, m);
      n := m;
    }
  }

  /** A helper that is left is kept alive by what is left. */
  lemma KeptIsAlive(base: Source, patch: Source, n: string)
    requires NoStrayHelper(base, patch) && ExtractFrozen(patch).Some?
    requires n in Prune(Changed(base, patch)) && !Fresh(base, patch, n)
    ensures StaysAlive(base, patch, n)
  {
    var changed := Changed(base, patch);
    var left := Prune(changed).Keys;
    var kept := set m | m in left && !Fresh(base, patch, m);
    LeftIsSupported(changed);
    forall r | r in kept && IsCandidatesHelper(r) ensures CalledFrom(base, patch, kept, r) {
      assert ReferredFrom(changed, left, r);
      var m :| m in left && m in changed && r in Refs(changed[m].body);
      var side, caller := CallerSurvives(base, patch, m, r);
      assert caller in kept;
    }
    assert SelfSupporting(base, patch, kept);
  }

  // ---- what remains, and where

  /** What remains of the texts is in the merged class. */
  lemma RemainingSits(base: Source, patch: Source, side: Side, n: string) returns (key: string)
    requires NoStrayHelper(base, patch) && Remains(base, patch, side, n)
    ensures Sits(base, patch, side, n, key, FinalMembers(base, patch))
  {
    FinalMembersAre(base, patch);
    key := SurvivorSits(base, patch, side, n);
    if Freezes(base, patch) {
      var changed := Changed(base, patch);
      HookNameIsHookName(ParamCandidates);
      assert key in changed && changed[key] == CoreMembers(base, patch)[key];
      PruneKeeps(changed);
      if IsCandidatesHelper(key) {
        AliveIsKept(base, patch, key);
      }
    }
  }

  /** Every member of the merged class remains from the texts, or loads only added imports. */
  lemma FinalRemains(base: Source, patch: Source, key: string) returns (side: Side, n: string)
    requires NoStrayHelper(base, patch) && key in FinalMembers(base, patch)
    ensures || Globals(FinalMembers(base, patch)[key].body) <= ComposeAll(base, patch).imports.Keys
            || (Remains(base, patch, side, n) && FinalMembers(base, patch)[key] == TextOf(base, patch, side, n)
                && (ComposedName(base, patch, n) || key == n))
  {
    FinalMembersAre(base, patch);
    side, n := OfBase, key;
    if Freezes(base, patch) {
      PruneKeeps(Changed(base, patch));
      FrozenRefersToNothing(ExtractFrozen(patch).value);
    }
    if !(Freezes(base, patch) && key == HookName(ParamCandidates)) {
      assert key in CoreMembers(base, patch) && FinalMembers(base, patch)[key] == CoreMembers(base, patch)[key];
      if Fresh(base, patch, key) {
        var h;
        side, h := FreshSurvives(base, patch, key);
        n := HookName(h);
        FreshRemains(base, patch, side, h, key);
      } else if ComposedName(base, patch, key) {
        WrapperIs(base, patch, key);
      } else {
        side := PlainSurvives(base, patch, key);
        if Freezes(base, patch) { KeptIsAlive(base, patch, key); }
      }
    }
  }

  lemma FreshRemains(base: Source, patch: Source, side: Side, h: Hook, key: string)
    requires NoStrayHelper(base, patch) && key in FinalMembers(base, patch) && Fresh(base, patch, key)
    requires IsComposed(base, patch, h) && Survives(base, patch, side, HookName(h)) && (IsCandidatesHelper(key) <==> h == ParamCandidates)
    ensures Remains(base, patch, side, HookName(h)) && ComposedName(base, patch, HookName(h))
  {
    FinalMembersAre(base, patch);
    if Freezes(base, patch) {
      if h == ParamCandidates { FreshHelperGone(base, patch, key); }
      if HookName(h) == HookName(ParamCandidates) { HookNameInjective(h, ParamCandidates); }
      HookNameIsHookName(h);
      if IsCandidatesHelper(HookName(h)) { CandidatesHelperIsNoHook(HookName(h)); }
    }
  }

  // ---- when the merge passes

  /** A method of a passing text that misses a name looks for a lost one, or for the own name it has given up. */
  lemma MissingName(base: Source, patch: Source, side: Side, n: string, key: string, g: string, known: set<string>, lost: set<string>)
    requires Finds(base.members, known + lost) && Finds(patch.members, known + lost)
    requires Remains(base, patch, side, n) && (ComposedName(base, patch, n) || key == n)
    requires g in Sought(key, TextOf(base, patch, side, n)) && g !in known
    ensures HookNamesItself(base, patch, known) || LostIsSought(base, patch, lost, known)
  {
    var m := TextOf(base, patch, side, n);
    if g == n {
      var h :| IsComposed(base, patch, h) && HookName(h) == n;
      assert SeeksOwn(base, h, known) || SeeksOwn(patch, h, known);
    } else {
      assert g in Sought(n, m);
      assert g in known + lost;
    }
  }

  lemma MembersFind(base: Source, patch: Source, known: set<string>, lost: set<string>)
    requires NoStrayHelper(base, patch) && ComposeAll(base, patch).imports.Keys <= known
    requires Finds(base.members, known + lost) && Finds(patch.members, known + lost)
    requires !HookNamesItself(base, patch, known) && !LostIsSought(base, patch, lost, known)
    ensures Finds(FinalMembers(base, patch), known)
  {
    var members := FinalMembers(base, patch);
    forall key | key in members ensures Sought(key, members[key]) <= known {
      var side, n := FinalRemains(base, patch, key);
      forall g | g in Sought(key, members[key]) ensures g in known {
        if g !in known {
          MissingName(base, patch, side, n, key, g, known, lost);
        }
      }
    }
  }

  /** A composed hook whose version looks for the hook's name breaks the merge. */
  lemma OwnNameMissed(base: Source, patch: Source, h: Hook, known: set<string>)
    requires NoStrayHelper(base, patch) && IsComposed(base, patch, h) && (Freezes(base, patch) ==> h != ParamCandidates)
    requires SeeksOwn(base, h, known) || SeeksOwn(patch, h, known)
    ensures !Finds(FinalMembers(base, patch), known)
  {
    var n := HookName(h);
    var side := if SeeksOwn(base, h, known) then OfBase else OfPatch;
    assert ComposedName(base, patch, n);
    NotSuppressed(patch, n);
    HookNameIsHookName(h);
    if IsCandidatesHelper(n) { CandidatesHelperIsNoHook(n); }
    if n == HookName(ParamCandidates) { HookNameInjective(h, ParamCandidates); }
    var key := RemainingSits(base, patch, side, n);
    assert n in Sought(key, FinalMembers(base, patch)[key]);
  }

  lemma LostNameMissed(base: Source, patch: Source, side: Side, n: string, g: string, known: set<string>)
    requires NoStrayHelper(base, patch) && Remains(base, patch, side, n)
    requires g in Sought(n, TextOf(base, patch, side, n)) && g !in known && !Generated(g)
    ensures !Finds(FinalMembers(base, patch), known)
  {
    var key := RemainingSits(base, patch, side, n);
    assert g in Sought(key, FinalMembers(base, patch)[key]);
  }

  /** The members of the merged class find what they look for exactly when no version of a composed hook that is
      left looks for the hook's name and no method that is left looks for a lost name. */
  lemma FindsExactlyOnTexts(base: Source, patch: Source, known: set<string>, lost: set<string>)
    requires NoStrayHelper(base, patch) && ComposeAll(base, patch).imports.Keys <= known
    requires Finds(base.members, known + lost) && Finds(patch.members, known + lost)
    requires forall g :: g in lost ==> !Generated(g)
    ensures Finds(FinalMembers(base, patch), known) <==> !HookNamesItself(base, patch, known) && !LostIsSought(base, patch, lost, known)
  {
    if HookNamesItself(base, patch, known) {
      var h :| IsComposed(base, patch, h) && (Freezes(base, patch) ==> h != ParamCandidates)
               && (SeeksOwn(base, h, known) || SeeksOwn(patch, h, known));
      OwnNameMissed(base, patch, h, known);
    } else if LostIsSought(base, patch, lost, known) {
      var side, n, g :| Remains(base, patch, side, n) && g in Sought(n, TextOf(base, patch, side, n)) && g in lost && g !in known;
      LostNameMissed(base, patch, side, n, g, known);
    } else {
      MembersFind(base, patch, known, lost);
    }
  }

  // ---- the names the merge adds

  /** Each combining helper is imported for one hook only. */
  lemma {:induction false} AddedImports(k: nat, base: Source, patch: Source)
    requires k <= |COMPOSE_ORDER|
    ensures UNION_COLUMNS in ComposeFirst(k, base, patch).imports ==> IsComposed(base, patch, FeatureTransform)
    ensures UNION_CANDIDATES in ComposeFirst(k, base, patch).imports ==> IsComposed(base, patch, ParamCandidates)
  {
    if k > 0 {
      AddedImports(k - 1, base, patch);
      assert UNION_COLUMNS[7] != UNION_CANDIDATES[7];
    }
  }

  /** The combining helpers of the hooks that both texts define differently. */
  function AddedNames(base: Source, patch: Source): set<string> {
    (if IsComposed(base, patch, FeatureTransform) then {UNION_COLUMNS} else {}) +
    (if IsComposed(base, patch, ParamCandidates) then {UNION_CANDIDATES} else {})
  }

  lemma AddedNamesAre(base: Source, patch: Source)
    ensures ComposeAll(base, patch).imports.Keys == AddedNames(base, patch)
  {
    ComposeFirstLaid(|COMPOSE_ORDER|, base, patch);
    AddedImports(|COMPOSE_ORDER|, base, patch);
    assert COMPOSE_ORDER[..|COMPOSE_ORDER|] == COMPOSE_ORDER;
    InOrder(FeatureTransform);
    InOrder(ParamCandidates);
    assert UNION_COLUMNS in HelperImports(FeatureTransform) && UNION_CANDIDATES in HelperImports(ParamCandidates);
  }

  /** The names both texts provide outside async defs, the builtins, and the combining helpers. */
  function KnownOnTexts(builtins: set<string>, base: Module, patch: Module): set<string> {
    builtins + Provided(base) + Provided(patch) + AddedNames(AsSource(base), AsSource(patch))
  }

  lemma KnownAgrees(builtins: set<string>, base: Module, patch: Module)
    ensures KnownAfter(builtins, base, patch) == KnownOnTexts(builtins, base, patch)
    ensures ComposeAll(AsSource(base), AsSource(patch)).imports.Keys <= KnownOnTexts(builtins, base, patch)
  {
    AddedNamesAre(AsSource(base), AsSource(patch));
    OnlyUnionsAdded(AsSource(base), AsSource(patch));
  }

  /** For any two texts that pass the check, freeze marks and async defs included: their merge goes through if and
      only if no helper collides, and a star import is there, or no composed hook that is left names itself and no
      method that is left looks for a top-level async def. All of it is a condition on the two texts. */
  lemma MergeGoesThroughExactly(builtins: set<string>, base: Module, patch: Module)
    requires Passes(builtins, base) && Passes(builtins, patch)
    requires NoStrayHelper(AsSource(base), AsSource(patch))
    requires forall g :: g in LostNames(base, patch) ==> !Generated(g)
    ensures var b, p, known := AsSource(base), AsSource(patch), KnownOnTexts(builtins, base, patch);
            MergeTexts(builtins, base, patch).Fine? <==>
              && RealCollisions(AsMap(Helpers(base.top)), AsMap(Helpers(patch.top))) == {}
              && (HasStar(base) || HasStar(patch)
                  || (!HookNamesItself(b, p, known) && !LostIsSought(b, p, LostNames(base, patch), known)))
  {
    MergedStar(base, patch);
    if !HasStar(base) && !HasStar(patch) {
      KnownAgrees(builtins, base, patch);
      MergedNames(builtins, base, patch);
      MergedPassesMeans(builtins, base, patch, KnownOnTexts(builtins, base, patch));
      PassingFinds(builtins, base, KnownOnTexts(builtins, base, patch), LostNames(base, patch));
      PassingFinds(builtins, patch, KnownOnTexts(builtins, base, patch), LostNames(base, patch));
      FindsExactlyOnTexts(AsSource(base), AsSource(patch), KnownOnTexts(builtins, base, patch), LostNames(base, patch));
    }
  }

  lemma MergedPassesMeans(builtins: set<string>, base: Module, patch: Module, known: set<string>)
    requires !HasStar(MergedText(base, patch))
    requires var out := MergedText(base, patch); {PATCH} + TopNames(out.top) + ImportNames(AllImports(out)) + builtins == known
    ensures Passes(builtins, MergedText(base, patch)) <==> Finds(FinalMembers(AsSource(base), AsSource(patch)), known)
  {
    PassesMeans(builtins, MergedText(base, patch));
  }

  // ---- what the freeze changes

  function SelfNaming(h: Hook): Module {
    OnlyMembers(map[HookName(h) := Method(Arity(h), {}, Global(HookName(h), []))])
  }

  function ConstantHook(h: Hook, marks: seq<map<string, int>>): Module {
    OnlyMembers(map[HookName(h) := Method(Arity(h), {}, Const(NoneValue))]).(frozen := marks)
  }

  lemma BothPass(builtins: set<string>, h: Hook, marks: seq<map<string, int>>)
    requires HookName(h) !in builtins
    ensures var base, patch := SelfNaming(h), ConstantHook(h, marks);
            && Passes(builtins, base) && Passes(builtins, patch) && !HasStar(base) && !HasStar(patch)
            && NoStrayHelper(AsSource(base), AsSource(patch)) && LostNames(base, patch) == {}
            && Helpers(base.top) == [] == Helpers(patch.top)
            && HookName(h) !in KnownOnTexts(builtins, base, patch)
  {
    var base, patch := SelfNaming(h), ConstantHook(h, marks);
    NamesItself(h, Arity(h));
    BareModule(builtins, base);
    BareModule(builtins, patch);
    NoneLost(base, patch);
    assert RefsAll([]) == {};
    HookUnknown(builtins, base, patch, h);
    KnownAgrees(builtins, base, patch);
  }

  /** A base whose hook mentions its own name, and a patch that redefines the hook: the merge breaks exactly when
      the hook is not the one that the patch's mark freezes. */
  lemma FreezeSavesSelfNamingHookExactly(builtins: set<string>, h: Hook, marks: seq<map<string, int>>)
    requires Composable(h) && HookName(h) !in builtins
    ensures var base, patch := SelfNaming(h), ConstantHook(h, marks);
            && Passes(builtins, base) && Passes(builtins, patch)
            && (MergeTexts(builtins, base, patch).Breaks? <==> h != ParamCandidates || ExtractFrozen(AsSource(patch)).None?)
  {
    var base, patch := SelfNaming(h), ConstantHook(h, marks);
    BothPass(builtins, h, marks);
    MergeGoesThroughExactly(builtins, base, patch);
    OnlyHookComposed(h, marks);
    NamesItself(h, Arity(h));
    var known := KnownOnTexts(builtins, base, patch);
    assert SeeksOwn(AsSource(base), h, known);
    assert !LostIsSought(AsSource(base), AsSource(patch), {}, known);
  }

  lemma OnlyHookComposed(h: Hook, marks: seq<map<string, int>>)
    requires Composable(h)
    ensures var b, p := AsSource(SelfNaming(h)), AsSource(ConstantHook(h, marks));
            && (forall k :: IsComposed(b, p, k) <==> k == h)
            && (Freezes(b, p) <==> h == ParamCandidates && ExtractFrozen(p).Some?)
  {
    var b, p := AsSource(SelfNaming(h)), AsSource(ConstantHook(h, marks));
    assert b.members[HookName(h)].body.Global? && p.members[HookName(h)].body.Const?;
    assert p.overrides == {} && HookName(h) in RealCollisions(b.members, p.members);
    forall k ensures IsComposed(b, p, k) <==> k == h {
      if HookName(k) == HookName(h) { HookNameInjective(k, h); }
    }
    if HookName(ParamCandidates) == HookName(h) { HookNameInjective(ParamCandidates, h); }
  }
}
