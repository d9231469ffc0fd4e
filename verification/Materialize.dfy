/** materialize_best_pipeline and replay_best_pipeline (cycle/materialize.py): base and patch merged
    into one flat class. */
module Materialize {
  import opened Names
  import opened Python
  import opened Harness

  datatype MergeError = HelperCollision(names: set<string>) | UndefinedNames(members: set<string>)

  datatype Merged = Success(source: Source) | Failure(error: MergeError)

  /** _real_collisions: names on both sides whose definitions differ. */
  function RealCollisions<T(==)>(base: map<string, T>, patch: map<string, T>): set<string> {
    set n | n in base.Keys && n in patch.Keys && base[n] != patch[n]
  }

  function Vars(indices: seq<nat>): (ts: seq<Term>)
    ensures |ts| == |indices|
    ensures forall i :: 0 <= i < |ts| ==> ts[i] == Var(indices[i])
  {
    seq(|indices|, i requires 0 <= i < |indices| => Var(indices[i]))
  }

  /** _COMPOSE_TEMPLATES: the wrapper that runs prev and then, or beside it, newer. */
  function Wrapper(h: Hook, prev: string, newer: string): Method
    requires Composable(h)
  {
    match h
    case Preprocess =>
      Method(4, {}, Unpack(SelfCall(prev, Vars([0, 1, 2, 3])), SelfCall(newer, Vars([4, 5, 2, 3]))))
    case FeatureTransform =>
      Method(4, {}, Unpack(SelfCall(prev, Vars([0, 1, 2, 3])),
                       Unpack(SelfCall(newer, Vars([0, 1, 2, 3])),
                              Display([Global(UNION_COLUMNS, [Var(4), Var(6)]),
                                       Global(UNION_COLUMNS, [Var(5), Var(7)])]))))
    case PostprocessPredictions =>
      Method(2, {}, Let(SelfCall(prev, Vars([0, 1])), SelfCall(newer, Vars([2, 1]))))
    case ParamCandidates =>
      Method(1, {}, Global(UNION_CANDIDATES, [SelfCall(prev, Vars([0])), SelfCall(newer, Vars([0]))]))
  }

  /** _COMPOSE_HELPER_IMPORTS */
  function HelperImports(h: Hook): map<string, string> {
    match h
    case FeatureTransform => map[UNION_COLUMNS := UNION_COLUMNS_PATH]
    case ParamCandidates => map[UNION_CANDIDATES := UNION_CANDIDATES_PATH]
    case _ => map[]
  }

  // ---- composition

  /** The composable hooks in the order sorted() gives their names. */
  const COMPOSE_ORDER: seq<Hook> := [FeatureTransform, ParamCandidates, PostprocessPredictions, Preprocess]

  predicate IsComposed(base: Source, patch: Source, h: Hook) {
    && Composable(h)
    && HookName(h) in RealCollisions(base.members, patch.members)
    && HookName(h) !in patch.overrides
  }

  datatype Progress = Progress(members: map<string, Method>, existing: set<string>, imports: map<string, string>)

  function Start(base: Source, patch: Source): Progress {
    Progress(base.members + patch.members,
             base.helpers.Keys + patch.helpers.Keys + base.members.Keys + patch.members.Keys,
             map[])
  }

  /** One turn of the composition loop. */
  function Compose(h: Hook, base: Source, patch: Source, st: Progress): Progress
    requires IsComposed(base, patch, h)
  {
    var prev := UniqueName(PrevStem(h), st.existing);
    var newer := UniqueName(NewStem(h), st.existing + {prev});
    Progress(
      st.members[prev := base.members[HookName(h)]]
                [newer := patch.members[HookName(h)]]
                [HookName(h) := Wrapper(h, prev, newer)],
      st.existing + {prev, newer},
      st.imports + HelperImports(h))
  }

  function ComposeFirst(k: nat, base: Source, patch: Source): Progress
    requires k <= |COMPOSE_ORDER|
  {
    if k == 0 then Start(base, patch)
    else
      var st := ComposeFirst(k - 1, base, patch);
      var h := COMPOSE_ORDER[k - 1];
      if IsComposed(base, patch, h) then Compose(h, base, patch, st) else st
  }

  function ComposeAll(base: Source, patch: Source): Progress {
    ComposeFirst(|COMPOSE_ORDER|, base, patch)
  }

  // ---- suppression

  function SuppressedNames(patch: Source): set<string> {
    (if !Defines(patch, EnsembleSpec) && (Defines(patch, BuildModel) || Defines(patch, ModelSpec))
     then {HookName(EnsembleSpec)} else {}) +
    (if !Defines(patch, ModelSpec) && (Defines(patch, BuildModel) || Defines(patch, EnsembleSpec))
     then {HookName(ModelSpec)} else {})
  }

  // ---- freezing

  /** with_frozen_params: nothing is added for missing or empty params, or params whose literal does not
      read back. */
  function WithFrozen(src: Source, params: Option<map<string, int>>, roundTrips: bool): Source {
    if params.None? || params.value == map[] || !roundTrips then src
    else src.(frozen := src.frozen + [params.value])
  }

  /** _extract_frozen_params: the first assignment decides. */
  function ExtractFrozen(src: Source): Option<map<string, int>> {
    if src.frozen == [] || src.frozen[0] == map[] then None else Some(src.frozen[0])
  }

  function FrozenMethod(params: map<string, int>): Method {
    Method(1, {}, Const(List([Params(params)])))
  }

  function Referenced(members: map<string, Method>): set<string> {
    set n, r | n in members.Keys && r in Refs(members[n].body) :: r
  }

  function Dead(members: map<string, Method>): set<string> {
    set n | n in members.Keys && IsCandidatesHelper(n) && n !in Referenced(members)
  }

  /** The loop that removes unreferenced candidate helpers until none is left. */
  function Prune(members: map<string, Method>): map<string, Method>
    decreases |members|
  {
    var dead := Dead(members);
    if dead == {} then members
    else
      RemovalShrinks(members, dead);
      Prune(members - dead)
  }

  lemma RemovalShrinks(members: map<string, Method>, dead: set<string>)
    requires dead <= members.Keys && dead != {}
    ensures |members - dead| < |members|
  {
    assert (members - dead).Keys == members.Keys - dead;
    assert |members.Keys| == |(members.Keys - dead) + dead| == |members.Keys - dead| + |dead|;
  }

  /** _apply_frozen_params */
  function ApplyFrozen(members: map<string, Method>, params: map<string, int>): map<string, Method> {
    if HookName(ParamCandidates) !in members then members
    else Prune(members[HookName(ParamCandidates) := FrozenMethod(params)])
  }

  // ---- the merge

  function CoreMembers(base: Source, patch: Source): map<string, Method> {
    ComposeAll(base, patch).members - SuppressedNames(patch)
  }

  /** The module scope of the merged text: imports of base, then patch, then the combining helpers. */
  function ModuleScope(base: Source, patch: Source): Source {
    Source(base.helpers + patch.helpers,
           base.imports + patch.imports + ComposeAll(base, patch).imports,
           map[], {}, [])
  }

  function CoreSource(base: Source, patch: Source): Source {
    ModuleScope(base, patch).(members := CoreMembers(base, patch))
  }

  function Frozen(src: Source, params: Option<map<string, int>>): Source {
    match params
    case None => src
    case Some(ps) => src.(members := ApplyFrozen(src.members, ps))
  }

  /** The names the check looks for in method m called n: a method's own name counts as bound in it. */
  function Sought(n: string, m: Method): set<string> {
    Globals(m.body) - m.masked - {n}
  }

  /** undefined_names_in_patch: the members that use a name nothing in the module defines. */
  function UndefinedMembers(builtins: set<string>, src: Source): set<string> {
    set n | n in src.members.Keys &&
            exists g :: g in Sought(n, src.members[n]) && Resolve(builtins, src, g).Undefined?
  }

  function Validated(builtins: set<string>, src: Source): Merged {
    if UndefinedMembers(builtins, src) == {} then Success(src)
    else Failure(UndefinedNames(UndefinedMembers(builtins, src)))
  }

  function Merge(builtins: set<string>, base: Source, patch: Source): Merged {
    var collisions := RealCollisions(base.helpers, patch.helpers);
    if collisions != {} then Failure(HelperCollision(collisions))
    else Validated(builtins, Frozen(CoreSource(base, patch), ExtractFrozen(patch)))
  }

  /** Every name that a method loads is its own, bound in its text, a builtin, a helper or an import. */
  ghost predicate AllFound(builtins: set<string>, src: Source) {
    forall n, g :: n in src.members && g in Globals(src.members[n].body) ==>
      g == n || g in src.members[n].masked || g in builtins || g in src.helpers || g in src.imports
  }

  lemma AllFoundExactly(builtins: set<string>, src: Source)
    ensures AllFound(builtins, src) <==> UndefinedMembers(builtins, src) == {}
  {
    if UndefinedMembers(builtins, src) == {} {
      forall n, g | n in src.members && g in Globals(src.members[n].body)
        ensures g == n || g in src.members[n].masked || g in builtins || g in src.helpers || g in src.imports
      {
        assert n !in UndefinedMembers(builtins, src);
        assert g in Sought(n, src.members[n]) ==> !Resolve(builtins, src, g).Undefined?;
      }
    }
  }

  /** What stops a merge: a helper of both with different texts, before anything else; else a method that loads a name
      which is neither bound in it nor provided. */
  lemma MergeStopsExactly(builtins: set<string>, base: Source, patch: Source)
    ensures var m := Merge(builtins, base, patch);
            var collides := exists n :: n in base.helpers && n in patch.helpers && base.helpers[n] != patch.helpers[n];
            && (m.Failure? && m.error.HelperCollision? <==> collides)
            && (m.Failure? && m.error.HelperCollision? ==>
                  forall n :: n in m.error.names <==> n in base.helpers && n in patch.helpers && base.helpers[n] != patch.helpers[n])
            && (m.Success? <==> !collides && AllFound(builtins, Frozen(CoreSource(base, patch), ExtractFrozen(patch))))
  {
    if n :| n in base.helpers && n in patch.helpers && base.helpers[n] != patch.helpers[n] {
      assert n in RealCollisions(base.helpers, patch.helpers);
    }
    AllFoundExactly(builtins, Frozen(CoreSource(base, patch), ExtractFrozen(patch)));
  }

  /** A promotion history merged one promotion after the other. */
  function Replay(builtins: set<string>, codes: seq<Source>): Merged {
    if codes == [] then Success(EMPTY_SOURCE)
    else
      match Replay(builtins, codes[..|codes| - 1])
      case Success(best) => Merge(builtins, best, codes[|codes| - 1])
      case Failure(e) => Failure(e)
  }

  // ---- the procedures

  /** _apply_frozen_params: the while loop ends, and leaves ApplyFrozen. */
  method ApplyFrozenParams(members: map<string, Method>, params: map<string, int>)
    returns (kept: map<string, Method>)
    ensures kept == ApplyFrozen(members, params)
  {
    kept := members;
    if HookName(ParamCandidates) !in members {
      return;
    }
    kept := kept[HookName(ParamCandidates) := FrozenMethod(params)];
    while true
      invariant Prune(kept) == Prune(members[HookName(ParamCandidates) := FrozenMethod(params)])
      decreases |kept|
    {
      var dead := Dead(kept);
      if dead == {} {
        return;
      }
      RemovalShrinks(kept, dead);
      kept := kept - dead;
    }
  }

  /** _synthesize_composed_member: both versions of the hook under fresh names, and the wrapper under its own. */
  method SynthesizeComposedMember(h: Hook, base: Source, patch: Source, members: map<string, Method>,
                                  existing: set<string>, imports: map<string, string>)
    returns (members': map<string, Method>, existing': set<string>, imports': map<string, string>)
    requires IsComposed(base, patch, h)
    ensures Progress(members', existing', imports') == Compose(h, base, patch, Progress(members, existing, imports))
  {
    members', existing' := members, existing;
    var name := HookName(h);
    var prev := FindUniqueName(PrevStem(h), existing');
    existing' := existing' + {prev};
    var newer := FindUniqueName(NewStem(h), existing');
    existing' := existing' + {newer};
    members' := members'[prev := base.members[name]];
    members' := members'[newer := patch.members[name]];
    members' := members'[name := Wrapper(h, prev, newer)];
    imports' := imports + HelperImports(h);
    assert existing' == existing + {prev, newer};
  }

  /** materialize_best_pipeline */
  method MaterializeBestPipeline(builtins: set<string>, baseSource: Option<Source>, patch: Source)
    returns (r: Merged)
    ensures r == Merge(builtins, BaseOf(baseSource), patch)
  {
    var base := BaseOf(baseSource);
    var helperCollisions := RealCollisions(base.helpers, patch.helpers);
    if helperCollisions != {} {
      return Failure(HelperCollision(helperCollisions));
    }
    var mergedHelpers := base.helpers + patch.helpers;
    var memberCollisions := RealCollisions(base.members, patch.members);
    var existingNames := base.helpers.Keys + patch.helpers.Keys + base.members.Keys + patch.members.Keys;
    var mergedMembers := base.members + patch.members;
    var extraImports: map<string, string> := map[];

    for k := 0 to |COMPOSE_ORDER|
      invariant Progress(mergedMembers, existingNames, extraImports) == ComposeFirst(k, base, patch)
    {
      var h := COMPOSE_ORDER[k];
      var name := HookName(h);
      if name in memberCollisions && Composable(h) && name !in patch.overrides {
        mergedMembers, existingNames, extraImports :=
          SynthesizeComposedMember(h, base, patch, mergedMembers, existingNames, extraImports);
      }
    }

    ghost var composed := mergedMembers;
    ghost var dropped: set<string> := {};
    if !Defines(patch, EnsembleSpec) && (Defines(patch, BuildModel) || Defines(patch, ModelSpec)) {
      mergedMembers := mergedMembers - {HookName(EnsembleSpec)};
      dropped := dropped + {HookName(EnsembleSpec)};
    }
    if !Defines(patch, ModelSpec) && (Defines(patch, BuildModel) || Defines(patch, EnsembleSpec)) {
      mergedMembers := mergedMembers - {HookName(ModelSpec)};
      dropped := dropped + {HookName(ModelSpec)};
    }
    assert dropped == SuppressedNames(patch) && mergedMembers == composed - dropped;

    var frozenParams := ExtractFrozen(patch);
    if frozenParams.Some? {
      mergedMembers := ApplyFrozenParams(mergedMembers, frozenParams.value);
    }
    var result := Source(mergedHelpers, base.imports + patch.imports + extraImports, mergedMembers, {}, []);
    var undefinedNames := UndefinedMembers(builtins, result);
    if undefinedNames != {} {
      return Failure(UndefinedNames(undefinedNames));
    }
    r := Success(result);
  }

  /** A row of the promotion history: its code and pipeline_sha256, the text it was taken of standing for the hash. */
  datatype Promotion = Promotion(code: Source, sha: Option<Source>)

  datatype ReplayError = ReplayFailed(error: MergeError) | NotReproduced

  function Codes(rows: seq<Promotion>): seq<Source> {
    seq(|rows|, i requires 0 <= i < |rows| => rows[i].code)
  }

  /** Row i comes no later than the one to stop at. */
  predicate ReplaysRow(stopAt: Option<nat>, i: int) {
    stopAt.None? || i <= stopAt.value
  }

  /** The rows up to and with the one to stop at. */
  function Upto(rows: seq<Promotion>, stopAt: Option<nat>): (n: nat)
    ensures n <= |rows|
    ensures forall i :: 0 <= i < |rows| ==> (ReplaysRow(stopAt, i) <==> i < n)
  {
    if stopAt.Some? && stopAt.value < |rows| then stopAt.value + 1 else |rows|
  }

  /** replay_best_pipeline over the rows its query returns, oldest first. */
  method ReplayBestPipeline(builtins: set<string>, rows: seq<Promotion>, stopAt: Option<nat>, strictSha: bool)
    returns (best: Option<Source>, failed: Option<ReplayError>, replayed: nat)
    ensures rows == [] ==> best.None? && failed.None? && replayed == 0
    ensures failed.None? ==> replayed <= |rows| && forall i :: 0 <= i < |rows| ==> (ReplaysRow(stopAt, i) <==> i < replayed)
    ensures rows != [] ==>
              var n := Upto(rows, stopAt);
              match Replay(builtins, Codes(rows[..n]))
              case Success(s) =>
                if strictSha && rows[n - 1].sha.Some? && rows[n - 1].sha != Some(s) then failed == Some(NotReproduced)
                else best == Some(s) && failed.None? && replayed == n
              case Failure(e) => failed == Some(ReplayFailed(e))
  {
    var error;
    best, error, replayed := ReplayRows(builtins, rows, stopAt);
    if error.Some? {
      return best, Some(ReplayFailed(error.value)), replayed;
    }
    failed := None;
    if strictSha && best.Some? {
      var lastSha := rows[replayed - 1].sha;
      if lastSha.Some? && best != lastSha {
        failed := Some(NotReproduced);
      }
    }
  }

  /** One merge of the replay. */
  method ReplayRow(builtins: set<string>, rows: seq<Promotion>, i: nat, best: Option<Source>) returns (merged: Merged)
    requires i < |rows| && ReplayedTo(builtins, rows, i, best)
    ensures merged.Success? ==> ReplayedTo(builtins, rows, i + 1, Some(merged.source))
    ensures merged.Failure? ==> Replay(builtins, Codes(rows[..i + 1])) == merged
  {
    ReplayNextRow(builtins, rows, i, best);
    merged := MaterializeBestPipeline(builtins, best, rows[i].code);
  }

  /** The loop of replay_best_pipeline. */
  method ReplayRows(builtins: set<string>, rows: seq<Promotion>, stopAt: Option<nat>)
    returns (best: Option<Source>, error: Option<MergeError>, replayed: nat)
    ensures match error
            case None => replayed == Upto(rows, stopAt) && ReplayedTo(builtins, rows, replayed, best)
            case Some(e) => rows != [] && Replay(builtins, Codes(rows[..Upto(rows, stopAt)])) == Failure(e)
  {
    best, error, replayed := None, None, 0;
    for i := 0 to |rows|
      invariant error.None? && replayed == i && (stopAt.Some? ==> i <= stopAt.value)
      invariant ReplayedTo(builtins, rows, i, best)
    {
      var merged := ReplayRow(builtins, rows, i, best);
      if merged.Failure? {
        error := Some(merged.error);
        ReplayStopsAt(builtins, rows, i + 1, Upto(rows, stopAt));
        return;
      }
      best, replayed := Some(merged.source), i + 1;
      if stopAt == Some(i) {
        break;
      }
    }
  }

  function BaseOf(best: Option<Source>): Source {
    if best.Some? then best.value else EMPTY_SOURCE
  }

  /** best is the replay of the first i rows. */
  predicate ReplayedTo(builtins: set<string>, rows: seq<Promotion>, i: nat, best: Option<Source>)
    requires i <= |rows|
  {
    (best.None? <==> i == 0) && Replay(builtins, Codes(rows[..i])) == Success(BaseOf(best))
  }

  lemma ReplayNextRow(builtins: set<string>, rows: seq<Promotion>, i: nat, best: Option<Source>)
    requires i < |rows| && ReplayedTo(builtins, rows, i, best)
    ensures Replay(builtins, Codes(rows[..i + 1])) == Merge(builtins, BaseOf(best), rows[i].code)
  {
    var codes := Codes(rows[..i + 1]);
    assert codes[..|codes| - 1] == Codes(rows[..i]);
  }

  lemma ReplayStopsAt(builtins: set<string>, rows: seq<Promotion>, i: nat, n: nat)
    requires 0 < i <= n <= |rows| && Replay(builtins, Codes(rows[..i])).Failure?
    ensures Replay(builtins, Codes(rows[..n])) == Replay(builtins, Codes(rows[..i]))
  {
    assert Codes(rows[..n])[..i] == Codes(rows[..i]);
    ReplayFails(builtins, Codes(rows[..n]), i);
  }

  lemma {:induction false} ReplayFails(builtins: set<string>, codes: seq<Source>, i: nat)
    requires 0 < i <= |codes|
    requires Replay(builtins, codes[..i]).Failure?
    ensures Replay(builtins, codes) == Replay(builtins, codes[..i])
    decreases |codes| - i
  {
    if i == |codes| {
      assert codes[..i] == codes;
    } else {
      assert codes[..i + 1][..i] == codes[..i];
      ReplayFails(builtins, codes, i + 1);
    }
  }
}
