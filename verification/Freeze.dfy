/** Freezing param_candidates: with_frozen_params, _apply_frozen_params and its dead-helper loop
    (cycle/materialize.py), and freezing a base afterwards (bin/freeze_base.py). */
module Freeze {
  import opened Names
  import opened Python
  import opened Harness
  import opened Materialize
  import opened MergeMeaning

  lemma CandidatesHelperIsNoHook(n: string)
    requires IsCandidatesHelper(n)
    ensures !IsHookName(n)
  {
    assert n[0] == '_';
    UnderscoreIsNoHook(n);
  }

  /** What the loop leaves: only unreferenced helpers go, and none is left to remove. */
  lemma {:induction false} PruneKeeps(members: map<string, Method>)
    ensures Prune(members).Keys <= members.Keys
    ensures forall n :: n in Prune(members) ==> Prune(members)[n] == members[n]
    ensures forall n :: n in members && n !in Prune(members) ==> IsCandidatesHelper(n)
    ensures Referenced(Prune(members)) <= Prune(members).Keys + (Referenced(members) - members.Keys)
    ensures Dead(Prune(members)) == {}
    decreases |members|
  {
    var dead := Dead(members);
    if dead != {} {
      RemovalShrinks(members, dead);
      PruneKeeps(members - dead);
      assert Prune(members) == Prune(members - dead);
      assert Referenced(members - dead) <= Referenced(members);
      assert Referenced(members) !! dead;
    }
  }

  /** No self reference is left dangling. */
  lemma PruneStaysClosed(members: map<string, Method>)
    requires Closed(members)
    ensures Closed(Prune(members))
  {
    PruneKeeps(members);
    var left := Prune(members);
    assert Referenced(members) <= members.Keys;
    forall n, r | n in left && r in Refs(left[n].body) ensures r in left && !IsHookName(r) {
      assert r in Referenced(left);
      assert r in Refs(members[n].body);
    }
  }

  // ---- the largest set that supports itself

  ghost predicate ReferredFrom(members: map<string, Method>, from: set<string>, n: string) {
    exists m :: m in from && m in members && n in Refs(members[m].body)
  }

  /** Every candidates helper of kept is referred to from kept. */
  ghost predicate Supported(members: map<string, Method>, kept: set<string>) {
    && kept <= members.Keys
    && forall n :: n in kept && IsCandidatesHelper(n) ==> ReferredFrom(members, kept, n)
  }

  lemma {:induction false} SupportedIsKept(members: map<string, Method>, kept: set<string>)
    requires Supported(members, kept)
    ensures kept <= Prune(members).Keys
    decreases |members|
  {
    var dead := Dead(members);
    if dead != {} {
      RemovalShrinks(members, dead);
      forall n | n in kept ensures n in (members - dead).Keys && (IsCandidatesHelper(n) ==> ReferredFrom(members - dead, kept, n)) {
        if IsCandidatesHelper(n) {
          assert ReferredFrom(members, kept, n);
          var m :| m in kept && m in members && n in Refs(members[m].body);
          assert n in Referenced(members);
          NotDead(members, kept, m);
          assert m in members - dead;
        }
      }
      SupportedIsKept(members - dead, kept);
    }
  }

  lemma NotDead(members: map<string, Method>, kept: set<string>, n: string)
    requires Supported(members, kept) && n in kept
    ensures n !in Dead(members)
  {
    if IsCandidatesHelper(n) {
      assert ReferredFrom(members, kept, n);
    }
  }

  lemma LeftIsSupported(members: map<string, Method>)
    ensures Supported(members, Prune(members).Keys)
  {
    PruneKeeps(members);
    forall n | n in Prune(members) && IsCandidatesHelper(n) ensures ReferredFrom(members, Prune(members).Keys, n) {
      var m := Referrer(Prune(members), n);
    }
  }

  // ---- exactly the reachable helpers

  /** Each step of path follows a self reference, and it ends at n. */
  ghost predicate Follows(members: map<string, Method>, path: seq<string>, n: string) {
    && |path| > 0 && path[|path| - 1] == n
    && (forall i :: 0 <= i < |path| ==> path[i] in members)
    && (forall i :: 0 < i < |path| ==> path[i] in Refs(members[path[i - 1]].body))
  }

  /** path starts at a member that is no candidates helper. */
  ghost predicate Reaches(members: map<string, Method>, path: seq<string>, n: string) {
    Follows(members, path, n) && !IsCandidatesHelper(path[0])
  }

  /** path comes back to where it starts. */
  ghost predicate Circles(path: seq<string>) {
    exists i :: 0 < i < |path| && path[i] == path[0]
  }

  /** path starts at a member that is no candidates helper, or on a cycle. */
  ghost predicate Sustains(members: map<string, Method>, path: seq<string>, n: string) {
    Follows(members, path, n) && (!IsCandidatesHelper(path[0]) || Circles(path))
  }

  lemma SustainedIsKept(members: map<string, Method>, path: seq<string>, n: string)
    requires Sustains(members, path, n)
    ensures n in Prune(members)
  {
    var kept := set i | 0 <= i < |path| :: path[i];
    forall m | m in kept && IsCandidatesHelper(m) ensures ReferredFrom(members, kept, m) {
      var i :| 0 <= i < |path| && path[i] == m;
      var j := i;
      if i == 0 { j :| 0 < j < |path| && path[j] == path[0]; }
      assert path[j - 1] in kept && m in Refs(members[path[j - 1]].body);
    }
    SupportedIsKept(members, kept);
  }

  lemma FollowsBack(members: map<string, Method>, path: seq<string>, m: string, n: string)
    requires Follows(members, path, n) && m in members && path[0] in Refs(members[m].body)
    ensures Follows(members, [m] + path, n)
  {}

  /** Back from path along references, until a member is no candidates helper or comes up again. */
  lemma {:induction false} Backwards(members: map<string, Method>, path: seq<string>, seen: set<string>, n: string)
    returns (longer: seq<string>)
    requires Dead(members) == {} && Follows(members, path, n)
    requires seen <= members.Keys && forall m :: m in seen <==> m in path
    ensures Sustains(members, longer, n)
    decreases members.Keys - seen
  {
    if !IsCandidatesHelper(path[0]) {
      longer := path;
    } else {
      var m := Referrer(members, path[0]);
      FollowsBack(members, path, m, n);
      if m in seen {
        longer := [m] + path;
        var i :| 0 <= i < |path| && path[i] == m;
        assert longer[i + 1] == longer[0];
      } else {
        longer := Backwards(members, [m] + path, seen + {m}, n);
      }
    }
  }

  /** The loop keeps a member if and only if a path of self references reaches it from a member that is no
      candidates helper or from a cycle. */
  lemma PruneKeepsExactly(members: map<string, Method>, n: string)
    requires n in members
    ensures n in Prune(members) <==> exists path :: Sustains(members, path, n)
  {
    if n in Prune(members) {
      PruneKeeps(members);
      var path := Backwards(Prune(members), [n], {n}, n);
      assert Follows(members, path, n);
      assert Sustains(members, path, n);
    }
    if path :| Sustains(members, path, n) {
      SustainedIsKept(members, path, n);
    }
  }

  ghost function CandidatesHelpers(): iset<string> {
    iset n: string | IsCandidatesHelper(n)
  }

  /** rank falls along every self reference between two names of special. */
  ghost predicate Ranks(special: iset<string>, members: map<string, Method>, rank: map<string, nat>) {
    && (forall n :: n in members && n in special ==> n in rank)
    && (forall n, r :: n in members && n in special && r in Refs(members[n].body) && r in special ==>
          r in rank && n in rank && rank[r] < rank[n])
  }

  /** With no cycle among helpers, whatever is left is reachable. */
  lemma {:induction false} LeftIsReachable(special: iset<string>, members: map<string, Method>, rank: map<string, nat>, top: nat, n: string)
    returns (path: seq<string>)
    requires forall m :: m in special <==> IsCandidatesHelper(m)
    requires Dead(members) == {}
    requires Ranks(special, members, rank)
    requires forall m :: m in rank ==> rank[m] <= top
    requires n in members
    ensures Reaches(members, path, n)
    decreases if n in special then (if n in rank then top - rank[n] + 1 else top + 2) else 0
  {
    if n !in special {
      path := [n];
    } else {
      var m := Referrer(members, n);
      assert m in special ==> rank[n] < rank[m];
      var before := LeftIsReachable(special, members, rank, top, m);
      path := before + [n];
      ReachesNext(members, before, m, n);
    }
  }

  lemma ReachesNext(members: map<string, Method>, path: seq<string>, m: string, n: string)
    requires Reaches(members, path, m) && n in members && n in Refs(members[m].body)
    ensures Reaches(members, path + [n], n)
  {}

  lemma Referrer(members: map<string, Method>, n: string) returns (m: string)
    requires Dead(members) == {} && n in members && IsCandidatesHelper(n)
    ensures m in members && n in Refs(members[m].body)
  {
    assert n !in Dead(members);
    m :| m in members && n in Refs(members[m].body);
  }

  lemma SubmapRanks(special: iset<string>, members: map<string, Method>, kept: map<string, Method>, rank: map<string, nat>)
    requires Ranks(special, members, rank)
    requires forall n :: n in kept ==> n in members && kept[n] == members[n]
    ensures Ranks(special, kept, rank)
  {}

  lemma SubmapReaches(members: map<string, Method>, kept: map<string, Method>, path: seq<string>, n: string)
    requires Reaches(kept, path, n)
    requires forall n :: n in kept ==> n in members && kept[n] == members[n]
    ensures Reaches(members, path, n)
  {}

  lemma KeptIsReachable(members: map<string, Method>, rank: map<string, nat>, n: string)
    returns (path: seq<string>)
    requires Ranks(CandidatesHelpers(), members, rank)
    requires n in Prune(members)
    ensures Reaches(members, path, n)
  {
    PruneKeeps(members);
    var top := MaxRank(rank);
    SubmapRanks(CandidatesHelpers(), members, Prune(members), rank);
    path := LeftIsReachable(CandidatesHelpers(), Prune(members), rank, top, n);
    SubmapReaches(members, Prune(members), path, n);
  }

  /** The loop keeps exactly the helpers reachable from members that are no candidates helpers. */
  lemma PruneKeepsExactlyReachable(members: map<string, Method>, rank: map<string, nat>, n: string)
    requires Ranks(CandidatesHelpers(), members, rank)
    requires n in members && IsCandidatesHelper(n)
    ensures n in Prune(members) <==> exists path :: Reaches(members, path, n)
  {
    if n in Prune(members) {
      var path := KeptIsReachable(members, rank, n);
    }
    if path :| Reaches(members, path, n) {
      SustainedIsKept(members, path, n);
    }
  }

  lemma {:induction false} MaxRank(rank: map<string, nat>) returns (top: nat)
    ensures forall m :: m in rank ==> rank[m] <= top
    decreases rank.Keys
  {
    if rank.Keys == {} {
      top := 0;
    } else {
      var n :| n in rank.Keys;
      var rest := rank - {n};
      assert n !in rest.Keys;
      var t := MaxRank(rest);
      top := if rank[n] > t then rank[n] else t;
      forall m | m in rank ensures rank[m] <= top {
        if m != n { assert m in rest && rest[m] == rank[m]; }
      }
    }
  }

  /** The acyclicity is needed: a helper that refers only to itself is unreachable and stays. */
  lemma SelfReferringHelperStays(members: map<string, Method>, n: string)
    requires n in members && IsCandidatesHelper(n) && n in Refs(members[n].body)
    ensures n in Prune(members)
  {
    var path := [n, n];
    assert path[1] == path[0];
    SustainedIsKept(members, path, n);
  }

  // ---- the meaning of a frozen class

  /** Freezing as a layer: it replaces param_candidates by a single constant candidate. */
  function FreezeLayer(params: map<string, int>): Source {
    Source(map[], map[], map[HookName(ParamCandidates) := FrozenMethod(params)], {HookName(ParamCandidates)}, [])
  }

  lemma FrozenCall(w: World, src: Source, params: map<string, int>, args: seq<Value>)
    requires |args| == 1
    requires HookName(ParamCandidates) in src.members && src.members[HookName(ParamCandidates)] == FrozenMethod(params)
    ensures Call(w, src, HookName(ParamCandidates), args) == Return(List([Params(params)]))
  {
    RunIs(w, src, FrozenMethod(params).body, args, 0, Return(List([Params(params)])));
  }

  /** Every other hook keeps its method and the scope it needs. */
  lemma OtherHooksUnmoved(w: World, src: Source, params: map<string, int>, h: Hook, args: seq<Value>)
    requires Closed(src.members) && Defines(src, ParamCandidates)
    requires h != ParamCandidates && |args| == Arity(h)
    ensures RunHook(w, Flat(src), h, args) == RunHook(w, Flat(Frozen(src, Some(params))), h, args)
    ensures Defines(Frozen(src, Some(params)), h) == Defines(src, h)
  {
    var out := Frozen(src, Some(params));
    OtherHooksPresent(src, params);
    if Defines(src, h) {
      OtherMethodsUnmoved(w, src, params, h, args);
    } else {
      assert Suppresses(src, h) == Suppresses(out, h);
    }
  }

  lemma OtherMethodsUnmoved(w: World, src: Source, params: map<string, int>, h: Hook, args: seq<Value>)
    requires Closed(src.members) && Defines(src, ParamCandidates)
    requires h != ParamCandidates && Defines(src, h) && Defines(Frozen(src, Some(params)), h)
    ensures Call(w, src, HookName(h), args) == Call(w, Frozen(src, Some(params)), HookName(h), args)
  {
    if HookName(h) == HookName(ParamCandidates) { HookNameInjective(h, ParamCandidates); }
    KeptMethodUnmoved(w, src, params, HookName(h), args);
  }

  lemma KeptMethodUnmoved(w: World, src: Source, params: map<string, int>, n: string, args: seq<Value>)
    requires Closed(src.members) && Defines(src, ParamCandidates)
    requires n != HookName(ParamCandidates) && n in Frozen(src, Some(params)).members
    ensures n in src.members && Call(w, src, n, args) == Call(w, Frozen(src, Some(params)), n, args)
  {
    var out := Frozen(src, Some(params));
    FrozenMembers(src, params);
    FrozenScope(w, src, params);
    CallAgrees(w, out, n, src, n, NonHooks(out.members), args);
  }

  lemma FrozenScope(w: World, src: Source, params: map<string, int>)
    requires Closed(src.members) && Defines(src, ParamCandidates)
    ensures var out := Frozen(src, Some(params));
            && SameScope(w, out, src, NonHooks(out.members))
            && forall n :: n in out.members ==>
                 Portable(w, out, src, NonHooks(out.members), Refs(out.members[n].body), Globals(out.members[n].body))
  {
    var out := Frozen(src, Some(params));
    FrozenMembers(src, params);
    HookNameIsHookName(ParamCandidates);
    assert forall g :: Resolve(w.builtins, out, g) == Resolve(w.builtins, src, g);
    ScopeMoves(w, out, src);
  }

  lemma OtherHooksPresent(src: Source, params: map<string, int>)
    requires Defines(src, ParamCandidates)
    ensures forall h :: Defines(Frozen(src, Some(params)), h) == Defines(src, h)
  {
    PruneKeeps(src.members[HookName(ParamCandidates) := FrozenMethod(params)]);
    forall h ensures Defines(Frozen(src, Some(params)), h) == Defines(src, h) {
      HookNameIsHookName(h);
      if IsCandidatesHelper(HookName(h)) { CandidatesHelperIsNoHook(HookName(h)); }
    }
  }

  lemma FrozenMembers(src: Source, params: map<string, int>)
    requires Closed(src.members) && Defines(src, ParamCandidates)
    ensures var out := Frozen(src, Some(params)).members;
            && Closed(out) && out.Keys <= src.members.Keys
            && HookName(ParamCandidates) in out && out[HookName(ParamCandidates)] == FrozenMethod(params)
            && (forall n :: n in out && n != HookName(ParamCandidates) ==> out[n] == src.members[n])
            && (forall n :: n in src.members && n !in out ==> IsCandidatesHelper(n))
  {
    var changed := src.members[HookName(ParamCandidates) := FrozenMethod(params)];
    assert Refs(FrozenMethod(params).body) == {};
    assert Closed(changed);
    PruneKeeps(changed);
    PruneStaysClosed(changed);
    HookNameIsHookName(ParamCandidates);
    if IsCandidatesHelper(HookName(ParamCandidates)) { CandidatesHelperIsNoHook(HookName(ParamCandidates)); }
  }

  /** Freezing a class is putting the freeze layer on it: only param_candidates changes, whatever
      helpers the loop removed. */
  lemma FreezeMeaning(w: World, src: Source, params: map<string, int>)
    requires Closed(src.members) && Defines(src, ParamCandidates)
    ensures Interchangeable(w, Patched(Flat(src), FreezeLayer(params)), Flat(Frozen(src, Some(params))))
  {
    var out := Frozen(src, Some(params));
    var layered := Patched(Flat(src), FreezeLayer(params));
    FrozenMembers(src, params);
    OtherHooksPresent(src, params);
    forall h ensures Defines(FreezeLayer(params), h) <==> h == ParamCandidates {
      if Defines(FreezeLayer(params), h) { HookNameInjective(h, ParamCandidates); }
    }
    forall h, args | |args| == Arity(h)
      ensures RunHook(w, layered, h, args) == RunHook(w, Flat(out), h, args)
    {
      if h == ParamCandidates {
        FrozenCall(w, out, params, args);
        FrozenCall(w, FreezeLayer(params), params, args);
      } else {
        assert Suppressors(EnsembleSpec) == {BuildModel, ModelSpec} && Suppressors(ModelSpec) == {BuildModel, EnsembleSpec};
        assert !Suppresses(FreezeLayer(params), h);
        OtherHooksUnmoved(w, src, params, h, args);
      }
    }
  }

  // ---- freezing afterwards

  /** _FREEZE_ONLY_PATCH */
  const FREEZE_ONLY: Source := EMPTY_SOURCE

  /** Extraction gives back what with_frozen_params wrote, when nothing was frozen before. */
  lemma ExtractionReadsBack(src: Source, params: map<string, int>)
    requires src.frozen == []
    ensures ExtractFrozen(WithFrozen(src, Some(params), true)) == (if params == map[] then None else Some(params))
    ensures ExtractFrozen(WithFrozen(src, Some(params), false)) == None
    ensures ExtractFrozen(WithFrozen(src, None, true)) == None
  {}

  /** Empty params leave no mark, so that a later one is still read. */
  lemma EmptyParamsLeaveNoMark(src: Source, roundTrips: bool, params: map<string, int>)
    requires src.frozen == [] && params != map[]
    ensures ExtractFrozen(WithFrozen(WithFrozen(src, Some(map[]), roundTrips), Some(params), true)) == Some(params)
  {}

  /** An earlier mark wins over a later one. */
  lemma EarlierMarkWins(src: Source, params: map<string, int>)
    requires src.frozen != []
    ensures ExtractFrozen(WithFrozen(src, Some(params), true)) == ExtractFrozen(src)
  {}

  lemma FreezeOnlyAddsNothing(base: Source, patch: Source)
    requires patch.(frozen := []) == FREEZE_ONLY
    ensures CoreSource(base, patch) == Source(base.helpers, base.imports, base.members, {}, [])
  {
    assert forall h :: !IsComposed(base, patch, h);
    NothingComposed(|COMPOSE_ORDER|, base, patch);
    assert SuppressedNames(patch) == {};
    assert base.members + patch.members - {} == base.members;
    assert base.helpers + patch.helpers == base.helpers;
    assert base.imports + patch.imports + map[] == base.imports;
  }

  lemma NothingToCompose(code: Source)
    ensures ComposeAll(EMPTY_SOURCE, code) == Start(EMPTY_SOURCE, code)
    ensures Start(EMPTY_SOURCE, code).members == code.members
  {
    assert forall h :: !IsComposed(EMPTY_SOURCE, code, h);
    NothingComposed(|COMPOSE_ORDER|, EMPTY_SOURCE, code);
    assert map[] + code.members == code.members;
  }

  lemma FrozenStillValid(builtins: set<string>, src: Source, params: map<string, int>)
    requires UndefinedMembers(builtins, src) == {}
    ensures UndefinedMembers(builtins, Frozen(src, Some(params))) == {}
  {
    var out := Frozen(src, Some(params));
    PruneKeeps(src.members[HookName(ParamCandidates) := FrozenMethod(params)]);
    assert Globals(FrozenMethod(params).body) == {};
    forall n, g | n in out.members && g in Sought(n, out.members[n])
      ensures !Resolve(builtins, out, g).Undefined?
    {
      assert Resolve(builtins, out, g) == Resolve(builtins, src, g);
      SoughtIsDefined(builtins, src, n, g);
    }
  }

  lemma SoughtIsDefined(builtins: set<string>, src: Source, n: string, g: string)
    requires UndefinedMembers(builtins, src) == {}
    requires n in src.members && g in Sought(n, src.members[n])
    ensures !Resolve(builtins, src, g).Undefined?
  {
    assert n !in UndefinedMembers(builtins, src);
  }

  /** Freezing afterwards equals freezing while merging: the class built from the marked code is the
      class built from the unmarked code and frozen later. */
  lemma FreezeAfterEqualsFreezeWhileMerging(builtins: set<string>, base: Source, code: Source, params: map<string, int>)
    requires code.frozen == [] && params != map[]
    requires Merge(builtins, base, code).Success?
    ensures Merge(builtins, Merge(builtins, base, code).source, WithFrozen(FREEZE_ONLY, Some(params), true)) ==
            Merge(builtins, base, WithFrozen(code, Some(params), true))
    ensures Merge(builtins, base, WithFrozen(code, Some(params), true)).Success?
  {
    var marked := WithFrozen(code, Some(params), true);
    ExtractionReadsBack(code, params);
    ExtractionReadsBack(FREEZE_ONLY, params);
    var core := CoreSource(base, code);
    SameCore(base, code, marked);
    var patch := WithFrozen(FREEZE_ONLY, Some(params), true);
    FreezeOnlyAddsNothing(core, patch);
    FrozenStillValid(builtins, core, params);
    assert RealCollisions(core.helpers, patch.helpers) == {};
  }

  /** The mark plays no part before the freezing step. */
  lemma SameCore(base: Source, code: Source, marked: Source)
    requires marked.(frozen := code.frozen) == code
    ensures CoreSource(base, marked) == CoreSource(base, code)
  {
    SameComposition(|COMPOSE_ORDER|, base, code, marked);
  }

  lemma {:induction false} SameComposition(k: nat, base: Source, code: Source, marked: Source)
    requires k <= |COMPOSE_ORDER|
    requires marked.(frozen := code.frozen) == code
    ensures ComposeFirst(k, base, marked) == ComposeFirst(k, base, code)
  {
    if k > 0 {
      SameComposition(k - 1, base, code, marked);
    }
  }
}
