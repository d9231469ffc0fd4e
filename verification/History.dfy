/** What a later promotion does to the layers of earlier ones. */
module History {
  import opened Names
  import opened Python
  import opened Harness
  import opened Materialize
  import opened MergeMeaning
  import opened Freeze
  import opened Independent

  /** What the structure of merged classes needs, whatever the names inside the methods mean. */
  ghost predicate Structured(codes: seq<Source>) {
    && (forall i :: 0 <= i < |codes| ==> Closed(codes[i].members))
    && (forall i, n :: 0 <= i < |codes| && n in codes[i].members && !IsHookName(n) ==> !Generated(n))
    && (forall i, j :: 0 <= i < j < |codes| ==> ShareMembers(codes[i], codes[j]))
  }

  /** Every member of a merged class comes from a patch or from the merge. */
  ghost predicate Owned(codes: seq<Source>, src: Source) {
    Closed(src.members) && AllKnown(codes, src.imports.Keys, src.members)
  }

  lemma OwnedShares(codes: seq<Source>, best: Source, code: Source)
    requires Structured(codes + [code]) && Owned(codes, best)
    ensures Closed(code.members) && ShareMembers(best, code)
  {
    var all := codes + [code];
    assert all[|codes|] == code;
    forall n | n in best.members && n in code.members && !IsHookName(n) ensures best.members[n] == code.members[n] {
      assert Known(codes, best.imports.Keys, n, best.members[n]);
      HookNameIsHookName(ParamCandidates);
      var i :| 0 <= i < |codes| && n in codes[i].members && codes[i].members[n] == best.members[n];
      assert all[i] == codes[i] && ShareMembers(all[i], all[|codes|]);
    }
  }

  lemma StepOwned(codes: seq<Source>, best: Source, code: Source)
    requires Structured(codes + [code]) && Owned(codes, best)
    ensures Owned(codes + [code], Frozen(CoreSource(best, code), ExtractFrozen(code)))
  {
    var core := CoreSource(best, code);
    OwnedShares(codes, best, code);
    LayersKept(best, code);
    CoreKnown(codes, best, code);
    if ExtractFrozen(code).Some? && Defines(core, ParamCandidates) {
      FrozenMembers(core, ExtractFrozen(code).value);
    }
    FrozenKnown(codes + [code], core.imports.Keys, core, ExtractFrozen(code));
  }

  lemma StructuredInit(codes: seq<Source>, code: Source)
    requires Structured(codes + [code])
    ensures Structured(codes)
  {
    var all := codes + [code];
    assert forall i :: 0 <= i < |codes| ==> all[i] == codes[i];
  }

  lemma MergedMembers(builtins: set<string>, best: Source, code: Source)
    requires Merge(builtins, best, code).Success?
    ensures var out := Frozen(CoreSource(best, code), ExtractFrozen(code));
            Merge(builtins, best, code).source.members == out.members && Merge(builtins, best, code).source.imports == out.imports
  {}

  lemma {:induction false} ReplayOwned(builtins: set<string>, codes: seq<Source>)
    requires Structured(codes) && Replay(builtins, codes).Success?
    ensures Owned(codes, Replay(builtins, codes).source)
  {
    if codes != [] {
      var init, code := codes[..|codes| - 1], codes[|codes| - 1];
      assert codes == init + [code];
      StructuredInit(init, code);
      ReplayOwned(builtins, init);
      StepOwned(init, Replay(builtins, init).source, code);
      MergedMembers(builtins, Replay(builtins, init).source, code);
    }
  }

  /** No wrapper part or renamed layer of an earlier round is overwritten or redirected by a later one; it
      goes only when that round froze, it is a candidates helper, and nothing left refers to it. */
  lemma EarlierLayersUntouched(builtins: set<string>, codes: seq<Source>, code: Source, n: string)
    requires Structured(codes + [code])
    requires Replay(builtins, codes).Success? && Replay(builtins, codes + [code]).Success?
    requires n in Replay(builtins, codes).source.members && !IsHookName(n)
    ensures var before := Replay(builtins, codes).source.members;
            var after := Replay(builtins, codes + [code]).source.members;
            if n in after then after[n] == before[n]
            else ExtractFrozen(code).Some? && IsCandidatesHelper(n) && n !in Referenced(after)
  {
    var all := codes + [code];
    assert all[..|all| - 1] == codes && all[|all| - 1] == code;
    StructuredInit(codes, code);
    ReplayOwned(builtins, codes);
    var best := Replay(builtins, codes).source;
    OwnedShares(codes, best, code);
    MergedMembers(builtins, best, code);
    MergedKeeps(best, code, n);
  }

  lemma MergedKeeps(best: Source, code: Source, n: string)
    requires Closed(best.members) && Closed(code.members) && ShareMembers(best, code)
    requires n in best.members && !IsHookName(n)
    ensures var after := Frozen(CoreSource(best, code), ExtractFrozen(code)).members;
            if n in after then after[n] == best.members[n]
            else ExtractFrozen(code).Some? && IsCandidatesHelper(n) && n !in Referenced(after)
  {
    LayersKept(best, code);
    var core := CoreSource(best, code);
    if ExtractFrozen(code).Some? && Defines(core, ParamCandidates) {
      FrozenMembers(core, ExtractFrozen(code).value);
      HookNameIsHookName(ParamCandidates);
    }
  }

  // ---- no cycle among generated candidate helpers

  ghost predicate NoCycle(special: iset<string>, members: map<string, Method>) {
    exists rank :: Ranks(special, members, rank)
  }

  /** No source defines a special name itself: only the merge does. */
  ghost predicate LeavesNames(special: iset<string>, src: Source) {
    forall n :: n in src.members ==> n !in special
  }

  ghost predicate NoHooksIn(special: iset<string>) {
    forall h :: HookName(h) !in special
  }

  lemma FewerHaveNoCycle(special: iset<string>, members: map<string, Method>, less: map<string, Method>)
    requires NoCycle(special, members)
    requires less.Keys <= members.Keys
    requires forall n :: n in less && n in special ==> less[n] == members[n]
    ensures NoCycle(special, less)
  {
    var rank :| Ranks(special, members, rank);
    assert Ranks(special, less, rank);
  }

  lemma StartHasNoCycle(special: iset<string>, base: Source, patch: Source)
    requires NoCycle(special, base.members) && LeavesNames(special, patch)
    ensures NoCycle(special, Start(base, patch).members)
  {
    var rank :| Ranks(special, base.members, rank);
    assert Ranks(special, Start(base, patch).members, rank);
  }

  lemma ComposeHasNoCycle(special: iset<string>, h: Hook, base: Source, patch: Source, st: Progress)
    requires IsComposed(base, patch, h)
    requires Closed(base.members) && Closed(patch.members) && Closed(st.members)
    requires base.members.Keys <= st.members.Keys <= st.existing
    requires LeavesNames(special, patch) && NoHooksIn(special)
    requires NoCycle(special, st.members)
    ensures NoCycle(special, Compose(h, base, patch, st).members)
  {
    var rank :| Ranks(special, st.members, rank);
    var top := MaxRank(rank);
    var prev := UniqueName(PrevStem(h), st.existing);
    var newer := UniqueName(NewStem(h), st.existing + {prev});
    PlacedHasNoCycle(special, st.members, rank, top, HookName(h), prev, newer,
                     base.members[HookName(h)], patch.members[HookName(h)], Wrapper(h, prev, newer));
  }

  /** Two fresh names rank above everything their bodies may refer to. */
  lemma PlacedHasNoCycle(special: iset<string>, members: map<string, Method>, rank: map<string, nat>, top: nat,
                         hook: string, prev: string, newer: string, kept: Method, added: Method, wrapper: Method)
    requires Closed(members) && Ranks(special, members, rank) && forall n :: n in rank ==> rank[n] <= top
    requires prev !in members && newer !in members && prev != newer && hook !in special && hook != prev && hook != newer
    requires Refs(kept.body) <= members.Keys
    requires forall r :: r in Refs(added.body) ==> r !in special
    ensures NoCycle(special, members[prev := kept][newer := added][hook := wrapper])
  {
    var nx := members[prev := kept][newer := added][hook := wrapper];
    var higher := rank[prev := top + 1][newer := top + 1];
    assert Ranks(special, nx, higher);
  }

  lemma {:induction false} ComposeFirstHasNoCycle(special: iset<string>, k: nat, base: Source, patch: Source)
    requires k <= |COMPOSE_ORDER|
    requires Closed(base.members) && Closed(patch.members)
    requires NoCycle(special, base.members) && LeavesNames(special, patch) && NoHooksIn(special)
    ensures NoCycle(special, ComposeFirst(k, base, patch).members)
  {
    if k == 0 {
      StartHasNoCycle(special, base, patch);
    } else {
      ComposeFirstHasNoCycle(special, k - 1, base, patch);
      ComposeFirstLaid(k - 1, base, patch);
      ComposeFirstClosed(k - 1, base, patch);
      if IsComposed(base, patch, COMPOSE_ORDER[k - 1]) {
        ComposeHasNoCycle(special, COMPOSE_ORDER[k - 1], base, patch, ComposeFirst(k - 1, base, patch));
      }
    }
  }

  lemma MergeHasNoCycle(special: iset<string>, codes: seq<Source>, best: Source, code: Source)
    requires Structured(codes + [code]) && Owned(codes, best)
    requires NoCycle(special, best.members) && LeavesNames(special, code) && NoHooksIn(special)
    ensures NoCycle(special, Frozen(CoreSource(best, code), ExtractFrozen(code)).members)
  {
    OwnedShares(codes, best, code);
    ComposeFirstHasNoCycle(special, |COMPOSE_ORDER|, best, code);
    var core := CoreSource(best, code);
    FewerHaveNoCycle(special, ComposeAll(best, code).members, core.members);
    if ExtractFrozen(code).Some? && Defines(core, ParamCandidates) {
      LayersKept(best, code);
      FrozenMembers(core, ExtractFrozen(code).value);
      FewerHaveNoCycle(special, core.members, Frozen(core, ExtractFrozen(code)).members);
    }
  }

  /** The references among generated names form no cycle in any replayed class. */
  lemma {:induction false} ReplayHasNoCycle(builtins: set<string>, special: iset<string>, codes: seq<Source>)
    requires Structured(codes) && NoHooksIn(special)
    requires forall i :: 0 <= i < |codes| ==> LeavesNames(special, codes[i])
    requires Replay(builtins, codes).Success?
    ensures NoCycle(special, Replay(builtins, codes).source.members)
  {
    if codes == [] {
      assert Ranks(special, EMPTY_SOURCE.members, map[]);
    } else {
      var init, code := codes[..|codes| - 1], codes[|codes| - 1];
      assert codes == init + [code];
      StructuredInit(init, code);
      ReplayHasNoCycle(builtins, special, init);
      ReplayOwned(builtins, init);
      var best := Replay(builtins, init).source;
      MergeHasNoCycle(special, init, best, code);
      MergedMembers(builtins, best, code);
    }
  }

  lemma NoHookIsCandidatesHelper()
    ensures NoHooksIn(CandidatesHelpers())
  {
    forall h ensures HookName(h) !in CandidatesHelpers() {
      HookNameIsHookName(h);
      if IsCandidatesHelper(HookName(h)) { CandidatesHelperIsNoHook(HookName(h)); }
    }
  }

  lemma FreezeIsExact(src: Source, params: map<string, int>, n: string)
    requires NoCycle(CandidatesHelpers(), src.members)
    requires Defines(src, ParamCandidates)
    requires n in src.members && n in CandidatesHelpers()
    ensures n in Frozen(src, Some(params)).members <==> ReachedOnceFrozen(src, params, n)
  {
    NoHookIsCandidatesHelper();
    assert HookName(ParamCandidates) !in CandidatesHelpers();
    var changed := src.members[HookName(ParamCandidates) := FrozenMethod(params)];
    FewerHaveNoCycle(CandidatesHelpers(), src.members, changed);
    var rank :| Ranks(CandidatesHelpers(), changed, rank);
    PruneKeepsExactlyReachable(changed, rank, n);
  }

  /** Freezing any replayed class keeps exactly the candidate helpers that a path of self references from
      another member still reaches. */
  lemma FreezeOfReplayIsExact(builtins: set<string>, codes: seq<Source>, params: map<string, int>, n: string)
    requires Structured(codes)
    requires forall i :: 0 <= i < |codes| ==> LeavesNames(CandidatesHelpers(), codes[i])
    requires Replay(builtins, codes).Success?
    requires Defines(Replay(builtins, codes).source, ParamCandidates)
    requires n in Replay(builtins, codes).source.members && n in CandidatesHelpers()
    ensures var src := Replay(builtins, codes).source;
            n in Frozen(src, Some(params)).members <==> ReachedOnceFrozen(src, params, n)
  {
    NoHookIsCandidatesHelper();
    ReplayHasNoCycle(builtins, CandidatesHelpers(), codes);
    FreezeIsExact(Replay(builtins, codes).source, params, n);
  }

  ghost predicate ReachedOnceFrozen(src: Source, params: map<string, int>, n: string) {
    var changed := src.members[HookName(ParamCandidates) := FrozenMethod(params)];
    exists path :: Reaches(changed, path, n)
  }
}
